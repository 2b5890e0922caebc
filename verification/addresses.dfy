/**
 * The address options of the selector: the loop that keeps the options
 * whose value is non-empty and not "0" (the "Enter a different post code"
 * entry), and the search for the first address with a given UPRN.
 */
module AddressList {
  import opened Wrappers
  import opened Portal

  /** `option.get('value') and option.get('value') != '0'`. */
  predicate IsAddressOption(o: SelectOption)
  {
    o.value.Some? && o.value.value != "" && o.value.value != "0"
  }

  /** The addresses of the kept options, in document order; `uprnOf` turns an option value into a UPRN. */
  function ToAddresses(options: seq<SelectOption>, uprnOf: string -> string): (r: seq<Address>)
    ensures |r| <= |options|
    ensures options != [] && IsAddressOption(options[0]) ==>
              r != [] && r[0] == Address(uprnOf(options[0].value.value), options[0].text)
  {
    if options == [] then []
    else
      var o := options[0];
      (if IsAddressOption(o) then [Address(uprnOf(o.value.value), o.text)] else [])
      + ToAddresses(options[1..], uprnOf)
  }

  /** The options of a longer list contribute after those of a shorter one: document order is kept. */
  lemma {:induction false} ToAddressesAppend(a: seq<SelectOption>, b: seq<SelectOption>, uprnOf: string -> string)
    ensures ToAddresses(a + b, uprnOf) == ToAddresses(a, uprnOf) + ToAddresses(b, uprnOf)
    decreases |a|
  {
    if a == [] {
      assert a + b == b;
    } else {
      var o := a[0];
      var head := if IsAddressOption(o) then [Address(uprnOf(o.value.value), o.text)] else [];
      assert (a + b)[0] == o;
      assert (a + b)[1..] == a[1..] + b;
      assert ToAddresses(a + b, uprnOf) == head + ToAddresses(a[1..] + b, uprnOf);
      assert ToAddresses(a, uprnOf) == head + ToAddresses(a[1..], uprnOf);
      ToAddressesAppend(a[1..], b, uprnOf);
    }
  }

  /** Every address comes from a kept option, with the UPRN derived from its value and its text as label. */
  lemma {:induction false} ToAddressesOrigin(options: seq<SelectOption>, uprnOf: string -> string, j: nat)
    requires j < |ToAddresses(options, uprnOf)|
    ensures exists i :: 0 <= i < |options| && IsAddressOption(options[i])
              && ToAddresses(options, uprnOf)[j] == Address(uprnOf(options[i].value.value), options[i].text)
    decreases |options|
  {
    var o := options[0];
    var head := if IsAddressOption(o) then [Address(uprnOf(o.value.value), o.text)] else [];
    if j < |head| {
      assert ToAddresses(options, uprnOf)[j] == head[0];
    } else {
      ToAddressesOrigin(options[1..], uprnOf, j - |head|);
      var i :| 0 <= i < |options[1..]| && IsAddressOption(options[1..][i])
               && ToAddresses(options[1..], uprnOf)[j - |head|]
                  == Address(uprnOf(options[1..][i].value.value), options[1..][i].text);
      assert options[i + 1] == options[1..][i];
    }
  }

  /** There are no addresses exactly when no option is kept. */
  lemma {:induction false} ToAddressesEmpty(options: seq<SelectOption>, uprnOf: string -> string)
    ensures ToAddresses(options, uprnOf) == [] <==> forall i :: 0 <= i < |options| ==> !IsAddressOption(options[i])
    decreases |options|
  {
    if options != [] {
      ToAddressesEmpty(options[1..], uprnOf);
      assert forall i :: 1 <= i < |options| ==> options[i] == options[1..][i - 1];
    }
  }

  /** The option loop of `get_bin_data`: one address appended per kept option. */
  method CollectAddresses(options: seq<SelectOption>, uprnOf: string -> string) returns (addresses: seq<Address>)
    ensures addresses == ToAddresses(options, uprnOf)
  {
    addresses := [];
    var i := 0;
    while i < |options|
      invariant 0 <= i <= |options|
      invariant addresses == ToAddresses(options[..i], uprnOf)
    {
      var option := options[i];
      if option.value.Some? && option.value.value != "" && option.value.value != "0" {
        addresses := addresses + [Address(uprnOf(option.value.value), option.text)];
      }
      ToAddressesAppend(options[..i], [option], uprnOf);
      assert options[..i + 1] == options[..i] + [option];
      i := i + 1;
    }
    assert options[..i] == options;
  }

  /**
   * `next(address for address in addresses if address["uprn"] == uprn)`: the
   * first address with that UPRN, or `None` when there is none.
   */
  function FindAddress(addresses: seq<Address>, uprn: string): (r: Option<Address>)
    ensures r.None? <==> forall i :: 0 <= i < |addresses| ==> addresses[i].uprn != uprn
    ensures r.Some? ==> exists i :: 0 <= i < |addresses| && addresses[i] == r.value
                          && forall k :: 0 <= k < i ==> addresses[k].uprn != uprn
    ensures r.Some? ==> r.value.uprn == uprn
  {
    if addresses == [] then None
    else if addresses[0].uprn == uprn then Some(addresses[0])
    else
      var r := FindAddress(addresses[1..], uprn);
      assert forall i :: 1 <= i < |addresses| ==> addresses[i] == addresses[1..][i - 1];
      r
  }
}
