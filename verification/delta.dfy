/**
 * The partial-postback field extractor (`extract_aspx_fields`): it splits an
 * ASP.NET AJAX delta response on `|` and, for every requested name, records
 * the part that follows it.
 */
module Delta {
  import opened Wrappers
  import opened Text
  import opened Portal

  /**
   * The value recorded for `key` after scanning parts `0 .. n-1`: the part
   * following the LAST occurrence of `key` among them, or `None`.
   */
  function ValueAfter(parts: seq<string>, n: nat, key: string): Option<string>
    requires n < |parts|
  {
    if n == 0 then None
    else if parts[n - 1] == key then Some(parts[n])
    else ValueAfter(parts, n - 1, key)
  }

  /** The dictionary after scanning parts `0 .. n-1`: every key, none added or lost. */
  function Table(parts: seq<string>, n: nat, keys: seq<string>): map<string, Option<string>>
    requires n < |parts|
  {
    map k | k in keys :: ValueAfter(parts, n, k)
  }

  /**
   * What the scan of `parts` for `keys` yields: it faults exactly when the final
   * part is one of the keys (its successor would be read past the end);
   * otherwise every key maps to the part after its last occurrence.
   */
  function Extracted(parts: seq<string>, keys: seq<string>): Result<map<string, Option<string>>, Fault>
    requires |parts| >= 1
  {
    if parts[|parts| - 1] in keys then Failure(IndexError)
    else Success(Table(parts, |parts| - 1, keys))
  }

  /** What both scrapers' `extract_aspx_fields(text, [FORM_ID])` yields for a delta response. */
  function PanelFields(text: string): (r: Result<map<string, Option<string>>, Fault>)
    // the read past the end: the response's final `|`-part is the panel name or a token name
    ensures r.Failure? <==> Split(text, '|')[|Split(text, '|')| - 1] in [FormId] + AspxKeys
    ensures r.Failure? ==> r.error == IndexError
    ensures r.Success? ==> r.value.Keys == (set k | k in [FormId] + AspxKeys)
  {
    Extracted(Split(text, '|'), [FormId] + AspxKeys)
  }

  /** `m` holds exactly the keys of `keys`, each bound to its value after scanning parts `0 .. n-1`. */
  ghost predicate Agrees(m: map<string, Option<string>>, parts: seq<string>, n: nat, keys: seq<string>)
    requires n < |parts|
  {
    && (forall k :: k in m <==> k in keys)
    && (forall k :: k in m ==> m[k] == ValueAfter(parts, n, k))
  }

  lemma AgreesTable(m: map<string, Option<string>>, parts: seq<string>, n: nat, keys: seq<string>)
    requires n < |parts|
    requires Agrees(m, parts, n, keys)
    ensures m == Table(parts, n, keys)
  {
  }

  /**
   * `extract_aspx_fields(response_text, keys)`. `allKeys` is the caller's `keys`
   * list after the call: the source extends it in place with the three token names.
   */
  method ExtractAspxFields(responseText: string, keys: seq<string>)
    returns (allKeys: seq<string>, r: Result<map<string, Option<string>>, Fault>)
    ensures allKeys == keys + AspxKeys
    ensures r == Extracted(Split(responseText, '|'), allKeys)
  {
    allKeys := keys + AspxKeys;
    var parts := Split(responseText, '|');
    var extracted: map<string, Option<string>> := map k | k in allKeys :: None;
    var i := 0;
    while i < |parts|
      invariant 0 <= i <= |parts|
      invariant i < |parts| ==> Agrees(extracted, parts, i, allKeys)
      invariant i == |parts| ==> parts[i - 1] !in allKeys && Agrees(extracted, parts, i - 1, allKeys)
    {
      var step := ScanPart(parts, i, allKeys, extracted);
      if step.Failure? {
        r := Failure(step.error);
        return;
      }
      extracted := step.value;
      i := i + 1;
    }
    AgreesTable(extracted, parts, |parts| - 1, allKeys);
    r := Success(extracted);
  }

  /**
   * The inner loop for part `i`: every key equal to the part is bound to the
   * next part, which does not exist when `i` is the last index.
   */
  method ScanPart(parts: seq<string>, i: nat, keys: seq<string>, extracted: map<string, Option<string>>)
    returns (r: Result<map<string, Option<string>>, Fault>)
    requires i < |parts| && Agrees(extracted, parts, i, keys)
    ensures i + 1 < |parts| ==> r.Success? && Agrees(r.value, parts, i + 1, keys)
    ensures i + 1 == |parts| ==> (r.Failure? <==> parts[i] in keys) && (r.Success? ==> r.value == extracted)
    ensures r.Failure? ==> r.error == IndexError
  {
    var part := parts[i];
    var m := extracted;
    var j := 0;
    while j < |keys|
      invariant 0 <= j <= |keys|
      invariant forall k :: k in m <==> k in keys
      invariant i + 1 < |parts| ==> forall k :: k in m ==>
                  m[k] == (if k == part && part in keys[..j] then Some(parts[i + 1]) else ValueAfter(parts, i, k))
      invariant i + 1 == |parts| ==> part !in keys[..j] && m == extracted
    {
      var key := keys[j];
      if key == part {
        if i + 1 >= |parts| {
          return Failure(IndexError);
        }
        m := m[key := Some(parts[i + 1])];
      }
      assert keys[..j + 1] == keys[..j] + [key];
      j := j + 1;
    }
    assert keys[..j] == keys;
    return Success(m);
  }

  /** A key that is no part before the final one maps to `None`, and only such a key does. */
  lemma {:induction false} ValueAfterAbsent(parts: seq<string>, n: nat, key: string)
    requires n < |parts|
    ensures ValueAfter(parts, n, key) == None <==> key !in parts[..n]
  {
    if n > 0 {
      ValueAfterAbsent(parts, n - 1, key);
      assert parts[..n] == parts[..n - 1] + [parts[n - 1]];
    }
  }

  /** A key occurring at `i` and not again before `n` maps to the part after `i`: later matches overwrite earlier ones. */
  lemma {:induction false} ValueAfterLast(parts: seq<string>, n: nat, key: string, i: nat)
    requires i < n < |parts|
    requires parts[i] == key
    requires forall j :: i < j < n ==> parts[j] != key
    ensures ValueAfter(parts, n, key) == Some(parts[i + 1])
  {
    if i < n - 1 {
      ValueAfterLast(parts, n - 1, key, i);
    }
  }

  /** The extractor's dictionary has exactly the requested keys plus the three token names. */
  lemma ExtractKeys(text: string, keys: seq<string>)
    ensures var r := Extracted(Split(text, '|'), keys + AspxKeys);
            r.Success? ==>
              && r.value.Keys == (set k | k in keys + AspxKeys)
              && "__VIEWSTATE" in r.value && "__VIEWSTATEGENERATOR" in r.value && "__EVENTVALIDATION" in r.value
  {
  }

  /** The extractor faults exactly when the final part of the response is a requested name. */
  lemma ExtractFaults(text: string, keys: seq<string>)
    ensures var parts := Split(text, '|');
            Extracted(parts, keys).Failure? <==> parts[|parts| - 1] in keys
  {
  }

  /** A requested name that is no part (other than the final one) maps to `None`; a present one to `Some`. */
  lemma ExtractAbsent(text: string, keys: seq<string>, key: string)
    requires key in keys
    ensures var parts := Split(text, '|');
            var r := Extracted(parts, keys);
            r.Success? ==> (r.value[key] == None <==> key !in parts[..|parts| - 1])
  {
    var parts := Split(text, '|');
    ValueAfterAbsent(parts, |parts| - 1, key);
  }

  /** A requested name maps to the part after its last occurrence. */
  lemma ExtractLastWins(text: string, keys: seq<string>, key: string, i: nat)
    requires key in keys
    requires var parts := Split(text, '|');
             i < |parts| - 1 && parts[i] == key && forall j :: i < j < |parts| - 1 ==> parts[j] != key
    ensures var parts := Split(text, '|');
            var r := Extracted(parts, keys);
            r.Success? ==> r.value[key] == Some(parts[i + 1])
  {
    var parts := Split(text, '|');
    ValueAfterLast(parts, |parts| - 1, key, i);
  }

  /** A small delta response: the panel fragment and one token are found, the two tokens it lacks are `None`. */
  lemma ExtractExample(parts: seq<string>)
    requires parts == ["1", "updatePanel", FormId, "<select/>", "hiddenField", "__VIEWSTATE", "abc", ""]
    ensures Extracted(Split(Join(parts, '|'), '|'), [FormId] + AspxKeys)
            == Success(map[FormId := Some("<select/>"), "__VIEWSTATE" := Some("abc"),
                           "__VIEWSTATEGENERATOR" := None, "__EVENTVALIDATION" := None])
  {
    ExampleParts(parts);
    ExampleTable(parts);
    assert parts[7] !in [FormId] + AspxKeys;
  }

  /** No part of the example holds the separator, so splitting its join gives the parts back. */
  lemma ExampleParts(parts: seq<string>)
    requires parts == ["1", "updatePanel", FormId, "<select/>", "hiddenField", "__VIEWSTATE", "abc", ""]
    ensures Split(Join(parts, '|'), '|') == parts
  {
    assert forall k :: 0 <= k < |parts| ==> '|' !in parts[k];
    SplitJoin(parts, '|');
  }

  /** The dictionary after scanning the example's parts before the last one. */
  lemma ExampleTable(parts: seq<string>)
    requires parts == ["1", "updatePanel", FormId, "<select/>", "hiddenField", "__VIEWSTATE", "abc", ""]
    ensures Table(parts, 7, [FormId] + AspxKeys)
            == map[FormId := Some("<select/>"), "__VIEWSTATE" := Some("abc"),
                   "__VIEWSTATEGENERATOR" := None, "__EVENTVALIDATION" := None]
  {
    ExampleValues(parts);
    var keys := [FormId] + AspxKeys;
    var m := map[FormId := Some("<select/>"), "__VIEWSTATE" := Some("abc"),
                 "__VIEWSTATEGENERATOR" := None, "__EVENTVALIDATION" := None];
    assert keys == [FormId, "__VIEWSTATE", "__VIEWSTATEGENERATOR", "__EVENTVALIDATION"];
    assert Agrees(m, parts, 7, keys);
    AgreesTable(m, parts, 7, keys);
  }

  lemma ExampleValues(parts: seq<string>)
    requires parts == ["1", "updatePanel", FormId, "<select/>", "hiddenField", "__VIEWSTATE", "abc", ""]
    ensures ValueAfter(parts, 7, FormId) == Some("<select/>")
    ensures ValueAfter(parts, 7, "__VIEWSTATE") == Some("abc")
    ensures ValueAfter(parts, 7, "__VIEWSTATEGENERATOR") == None
    ensures ValueAfter(parts, 7, "__EVENTVALIDATION") == None
  {
    ValueAfterLast(parts, 7, FormId, 2);
    ValueAfterLast(parts, 7, "__VIEWSTATE", 5);
    assert parts[..7] == ["1", "updatePanel", FormId, "<select/>", "hiddenField", "__VIEWSTATE", "abc"];
    ValueAfterAbsent(parts, 7, "__VIEWSTATEGENERATOR");
    ValueAfterAbsent(parts, 7, "__EVENTVALIDATION");
  }
}
