/**
 * The earlier scraper (bins.py): the same four exchanges, but no status is
 * ever checked, the postcode is lower-cased, `None` stands for "nothing
 * found", and the caller's UPRN is posted as given without being matched.
 */
module Bins {
  import opened Wrappers
  import opened Text
  import opened Portal
  import opened Delta
  import opened Schedule
  import opened AddressList
  import Scrape

  const PositionLLName: string := "ctl00$ContentPlaceHolder1$txtPositionLL"
  const PositionName: string := "ctl00$ContentPlaceHolder1$txtPosition"

  /** What `get_bin_data` returns: `None`, or a dict whose one entry may itself be `None`. */
  datatype LookupResult = NoAddress | Found(binCollections: Option<seq<BinCollection>>)

  /** `postcode.lower().replace(" ", "")`: no spaces and no upper-case letters are left. */
  function NormalizePostcode(postcode: string): (r: string)
    ensures ' ' !in r
    ensures forall i :: 0 <= i < |r| ==> !IsUpperAscii(r[i])
  {
    var lower := ToLower(postcode);
    assert forall c :: c in lower ==> !IsUpperAscii(c);
    Without(lower, ' ')
  }

  /** The two versions normalise a postcode alike except for letter case. */
  lemma NormalizePostcodeCase(postcode: string)
    ensures NormalizePostcode(postcode) == ToLower(Scrape.NormalizePostcode(postcode))
  {
    LowerWithout(ToUpper(postcode), ' ');
    LowerUpper(postcode);
  }

  /** The option value posted as the address is the option value itself, prefix included. */
  function RawValue(value: string): string
  {
    value
  }

  /**
   * The addresses a readable search response with a panel fragment offers:
   * those of its selector, or none when the fragment has no selector.
   */
  function Offered(search: DeltaResponse, selectIn: string -> Option<seq<SelectOption>>): (r: seq<Address>)
    requires PanelFields(search.text).Success? && PanelFields(search.text).value[FormId].Some?
    // none exactly when there is no selector or no kept option: the two `return None`s
    ensures var select := selectIn(PanelFields(search.text).value[FormId].value);
            r == [] <==> (select.None? || forall i :: 0 <= i < |select.value| ==> !IsAddressOption(select.value[i]))
    // each address is a kept option, its raw value posted as the UPRN
    ensures var select := selectIn(PanelFields(search.text).value[FormId].value);
            forall j :: 0 <= j < |r| ==>
              select.Some? && exists i :: 0 <= i < |select.value| && IsAddressOption(select.value[i])
                                         && r[j] == Address(select.value[i].value.value, select.value[i].text)
  {
    var select := selectIn(PanelFields(search.text).value[FormId].value);
    if select.None? then []
    else
      var r := ToAddresses(select.value, RawValue);
      ToAddressesEmpty(select.value, RawValue);
      assert forall j :: 0 <= j < |r| ==> exists i :: 0 <= i < |select.value| && IsAddressOption(select.value[i])
                                                  && r[j] == Address(select.value[i].value.value, select.value[i].text) by {
        forall j | 0 <= j < |r|
          ensures exists i :: 0 <= i < |select.value| && IsAddressOption(select.value[i])
                              && r[j] == Address(select.value[i].value.value, select.value[i].text)
        {
          ToAddressesOrigin(select.value, RawValue, j);
        }
      }
      r
  }

  /** This version's postcode search: the lower-cased postcode, blank position fields, no panel or token name. */
  function SearchForm(postcode: string): (f: Form)
    ensures PostcodeName in f && f[PostcodeName] == Some(postcode)
    ensures "__EVENTTARGET" in f && f["__EVENTTARGET"] == Some(SearchName)
    ensures FormId !in f && forall k :: k in AspxKeys ==> k !in f
  {
    map[Portal.ScriptManagerName := Some(FormName + "|" + SearchName),
        "__EVENTTARGET" := Some(SearchName),
        "__EVENTARGUMENT" := Some(""),
        PositionLLName := Some(""),
        PositionName := Some(""),
        PostcodeName := Some(postcode),
        "__ASYNCPOST" := Some("true")]
  }

  /** This version's address choice: the value as given, blank position fields, no panel or token name. */
  function AddressForm(value: string): (f: Form)
    ensures AddressName in f && f[AddressName] == Some(value)
    ensures "__EVENTTARGET" in f && f["__EVENTTARGET"] == Some(AddressName)
    ensures FormId !in f && forall k :: k in AspxKeys ==> k !in f
  {
    map[Portal.ScriptManagerName := Some(FormName + "|" + AddressName),
        PositionLLName := Some(""),
        PositionName := Some(""),
        AddressName := Some(value),
        "__EVENTTARGET" := Some(AddressName),
        "__EVENTARGUMENT" := Some(""),
        "__LASTFOCUS" := Some(""),
        "__ASYNCPOST" := Some("true")]
  }

  /** This version's submit postback: blank position fields, no panel or token name. */
  function NextForm(): (f: Form)
    ensures "__EVENTTARGET" in f && f["__EVENTTARGET"] == Some(NextButtonName)
    ensures FormId !in f && forall k :: k in AspxKeys ==> k !in f
  {
    map[PositionLLName := Some(""),
        PositionName := Some(""),
        "__EVENTTARGET" := Some(NextButtonName),
        "__EVENTARGUMENT" := Some(""),
        "__LASTFOCUS" := Some("")]
  }

  /**
   * `parse_bin_data` of this version: `None` without a `bartec` table,
   * otherwise the records of the four-cell rows after the header, possibly none.
   */
  method ParseBinData(table: Option<seq<seq<string>>>, parseDate: string -> Option<Date>)
    returns (r: Option<seq<BinCollection>>)
    ensures r.None? <==> table.None?
    ensures r.Some? ==> r.value == Records(AfterHeader(table.value), parseDate)
  {
    if table.None? {
      return None;
    }
    var bins := CollectRows(AfterHeader(table.value), parseDate);
    return Some(bins);
  }

  /**
   * The first half of this version's `get_bin_data`: load the page and search
   * the postcode. `Success(None)` is the early `return None`; otherwise the
   * fields of the search response, which offers at least one address.
   */
  method SearchAddresses(postcode: string, page: PageResponse, search: DeltaResponse,
                         selectIn: string -> Option<seq<SelectOption>>)
    returns (sent: seq<Request>, found: Result<Option<map<string, Option<string>>>, Fault>)
    ensures 1 <= |sent| <= 2 && sent[0] == Get(true)
    ensures if PageTokens(page.inputs).Failure? then |sent| == 1 && found == Failure(TypeError)
            else
              && |sent| == 2
              && sent[1] == Post(SearchForm(NormalizePostcode(postcode)) + TokenForm(PageTokens(page.inputs).value), true)
              && if PanelFields(search.text).Failure? then found == Failure(IndexError)
                 else if PanelFields(search.text).value[FormId].None? then found == Failure(TypeError)
                 else if Offered(search, selectIn) == [] then found == Success(None)
                 else found == Success(Some(PanelFields(search.text).value))
  {
    sent := [Get(true)];
    var tokens := PageTokens(page.inputs);
    if tokens.Failure? {
      return sent, Failure(tokens.error);
    }
    var data := SearchForm(NormalizePostcode(postcode)) + TokenForm(tokens.value);
    sent := sent + [Post(data, true)];

    var _, fields := ExtractAspxFields(search.text, [FormId]);
    if fields.Failure? {
      return sent, Failure(fields.error);
    }
    var fragment := fields.value[FormId];
    if fragment.None? {
      return sent, Failure(TypeError);
    }
    var select := selectIn(fragment.value);
    if select.None? {
      return sent, Success(None);
    }
    var addresses := CollectAddresses(select.value, RawValue);
    if addresses == [] {
      return sent, Success(None);
    }
    return sent, Success(Some(fields.value));
  }

  /**
   * The second half: post the caller's UPRN unchanged with the search
   * response's fields, then the submit with the address response's fields,
   * and read the schedule, or `None`, from the final page.
   */
  method SelectAndSubmit(uprn: string, fields: map<string, Option<string>>,
                         choice: DeltaResponse, final: TableResponse, parseDate: string -> Option<Date>)
    returns (later: seq<Request>, bins: Result<Option<seq<BinCollection>>, Fault>)
    ensures 1 <= |later| <= 2 && later[0] == Post(AddressForm(uprn) + fields, true)
    ensures if PanelFields(choice.text).Failure? then |later| == 1 && bins == Failure(IndexError)
            else
              && |later| == 2
              && later[1] == Post(NextForm() + PanelFields(choice.text).value, false)
              && bins == Success(if final.table.None? then None
                                 else Some(Records(AfterHeader(final.table.value), parseDate)))
  {
    later := [Post(AddressForm(uprn) + fields, true)];
    var _, fields' := ExtractAspxFields(choice.text, [FormId]);
    if fields'.Failure? {
      return later, Failure(fields'.error);
    }
    later := later + [Post(NextForm() + fields'.value, false)];
    var table := ParseBinData(final.table, parseDate);
    return later, Success(table);
  }

  /**
   * `get_bin_data(postcode, uprn)` of this version. `sent`, `selectIn` and
   * `parseDate` are as in the current scraper; the statuses of the responses
   * take no part.
   */
  method GetBinData(postcode: string, uprn: string,
                    page: PageResponse, search: DeltaResponse, choice: DeltaResponse, final: TableResponse,
                    selectIn: string -> Option<seq<SelectOption>>, parseDate: string -> Option<Date>)
    returns (sent: seq<Request>, result: Result<LookupResult, Fault>)
    ensures 1 <= |sent| <= 4 && sent[0] == Get(true)
    // each step in the order of the source, whatever the statuses: a missing hidden input (`None["value"]`),
    // an unreadable delta response (the `IndexError` of the extractor) or a missing panel fragment faults;
    // no selector or no address option in it is `None`; otherwise all four requests go out
    ensures if PageTokens(page.inputs).Failure? then |sent| == 1 && result == Failure(TypeError)
            else
              && |sent| >= 2
              && sent[1] == Post(SearchForm(NormalizePostcode(postcode)) + TokenForm(PageTokens(page.inputs).value), true)
              && if PanelFields(search.text).Failure? then |sent| == 2 && result == Failure(IndexError)
                 else if PanelFields(search.text).value[FormId].None? then |sent| == 2 && result == Failure(TypeError)
                 else if Offered(search, selectIn) == [] then
                   |sent| == 2 && result == Success(NoAddress)
                 else
                   // the address post carries the caller's UPRN unchanged
                   && |sent| >= 3
                   && sent[2] == Post(AddressForm(uprn) + PanelFields(search.text).value, true)
                   && if PanelFields(choice.text).Failure? then |sent| == 3 && result == Failure(IndexError)
                      else
                        && |sent| == 4
                        && sent[3] == Post(NextForm() + PanelFields(choice.text).value, false)
                        && result == Success(Found(if final.table.None? then None
                                                   else Some(Records(AfterHeader(final.table.value), parseDate))))
    // `None` is returned only after the search, and a schedule only after all four requests
    ensures result == Success(NoAddress) ==> |sent| == 2
    ensures result.Success? && result.value.Found? ==> |sent| == 4
  {
    var found;
    sent, found := SearchAddresses(postcode, page, search, selectIn);
    if found.Failure? {
      return sent, Failure(found.error);
    }
    if found.value.None? {
      return sent, Success(NoAddress);
    }
    var later, bins := SelectAndSubmit(uprn, found.value.value, choice, final, parseDate);
    sent := sent + later;
    assert sent[2] == later[0];
    assert |later| == 2 ==> sent[3] == later[1];
    if bins.Failure? {
      return sent, Failure(bins.error);
    }
    return sent, Success(Found(bins.value));
  }
}
