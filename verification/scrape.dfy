/**
 * The current scraper (scrape.py): typed errors, a status gate after every
 * exchange, UPRN prefix handling, and the four-step lookup that matches the
 * caller's UPRN against the offered addresses.
 */
module Scrape {
  import opened Wrappers
  import opened Text
  import opened Portal
  import opened Delta
  import opened Schedule
  import opened AddressList

  /** The scraper's exception classes, plus the uncaught Python exceptions. */
  datatype Error =
    | ClientError              // the postcode or UPRN resolves to no address
    | UpstreamError            // the schedule table is missing or has no rows
    | ServiceUnavailableError  // the council site answered 5xx
    | InvalidResponseError     // the council site answered 4xx
    | Unhandled(fault: Fault)

  datatype LookupResult = LookupResult(binCollections: seq<BinCollection>, address: Address)

  /** `requests.Response.ok`: false exactly for the statuses `raise_for_status` rejects. */
  predicate ResponseOk(status: int): (ok: bool)
    ensures status < 400 ==> ok
    ensures 400 <= status < 600 ==> !ok
  {
    !(400 <= status < 600)
  }

  /**
   * `validate_response`: every status from 400 up is rejected, server errors
   * as unavailable and client errors as invalid; everything below 400 passes
   * (so the final `response.ok` test never fires).
   */
  function ValidateResponse(status: int): (r: Outcome<Error>)
    ensures r.Pass? <==> status < 400
    ensures status >= 500 ==> r == Fail(ServiceUnavailableError)
    ensures 400 <= status < 500 ==> r == Fail(InvalidResponseError)
  {
    if status == 503 then Fail(ServiceUnavailableError)
    else if status == 404 then Fail(InvalidResponseError)
    else if status >= 500 then Fail(ServiceUnavailableError)
    else if status >= 400 then Fail(InvalidResponseError)
    else if !ResponseOk(status) then Fail(InvalidResponseError)
    else Pass
  }

  /** `format_uprn`: the service's one-letter prefix in front of the UPRN. */
  function FormatUprn(uprn: string): (r: string)
    ensures |r| == |uprn| + 1 && r[0] == 'U' && r[1..] == uprn
  {
    "U" + uprn
  }

  /**
   * `extract_uprn`, i.e. `lstrip("U")`: EVERY leading `U` goes, so the result
   * never starts with one, and what was dropped is a run of `U`s.
   */
  function ExtractUprn(value: string): (r: string)
    ensures r == [] || r[0] != 'U'
    ensures |r| <= |value| && value == value[..|value| - |r|] + r
    ensures forall i :: 0 <= i < |value| - |r| ==> value[i] == 'U'
  {
    TrimStart(value, {'U'})
  }

  /** Stripping the prefix twice is stripping it once. */
  lemma ExtractUprnIdempotent(value: string)
    ensures ExtractUprn(ExtractUprn(value)) == ExtractUprn(value)
  {
  }

  /** Prefixing and stripping gives back the UPRN exactly when it does not itself start with `U`. */
  lemma FormatExtractRoundTrip(uprn: string)
    ensures ExtractUprn(FormatUprn(uprn)) == uprn <==> (uprn == [] || uprn[0] != 'U')
  {
    var f := FormatUprn(uprn);
    assert f[1..] == uprn;
    if uprn != [] && uprn[0] == 'U' {
      assert |ExtractUprn(f)| < |uprn|;
    }
  }

  /** Stripping and re-prefixing restores an option value exactly when it has a single leading `U`. */
  lemma ExtractFormatRoundTrip(value: string)
    ensures FormatUprn(ExtractUprn(value)) == value <==> (|value| >= 1 && value[0] == 'U' && (|value| == 1 || value[1] != 'U'))
  {
    var r := ExtractUprn(value);
    if |value| >= 1 && value[0] == 'U' && (|value| == 1 || value[1] != 'U') {
      assert TrimStart(value, {'U'}) == TrimStart(value[1..], {'U'});
      assert value == [value[0]] + value[1..];
    }
  }

  /** The UPRN of every offered address is prefix-free. */
  lemma OfferedUprnsUnprefixed(options: seq<SelectOption>)
    ensures forall a :: a in ToAddresses(options, ExtractUprn) ==> a.uprn == [] || a.uprn[0] != 'U'
  {
    forall a | a in ToAddresses(options, ExtractUprn)
      ensures a.uprn == [] || a.uprn[0] != 'U'
    {
      var j :| 0 <= j < |ToAddresses(options, ExtractUprn)| && ToAddresses(options, ExtractUprn)[j] == a;
      ToAddressesOrigin(options, ExtractUprn, j);
    }
  }

  /** `postcode.upper().replace(" ", "")`: no spaces and no lower-case letters are left. */
  function NormalizePostcode(postcode: string): (r: string)
    ensures ' ' !in r
    ensures forall i :: 0 <= i < |r| ==> !IsLowerAscii(r[i])
  {
    var upper := ToUpper(postcode);
    assert forall c :: c in upper ==> !IsLowerAscii(c);
    Without(upper, ' ')
  }

  /** Normalising a normalised postcode changes nothing. */
  lemma NormalizePostcodeIdempotent(postcode: string)
    ensures NormalizePostcode(NormalizePostcode(postcode)) == NormalizePostcode(postcode)
  {
    var n := NormalizePostcode(postcode);
    assert ToUpper(n) == n;
  }

  /** Normalising works character by character, so it distributes over concatenation. */
  lemma NormalizePostcodeAppend(a: string, b: string)
    ensures NormalizePostcode(a + b) == NormalizePostcode(a) + NormalizePostcode(b)
  {
    ToUpperAppend(a, b);
    WithoutAppend(ToUpper(a), ToUpper(b), ' ');
  }

  /**
   * A space is dropped and any other character is kept, upper-cased: with
   * `NormalizePostcodeAppend`, every non-space character survives in order.
   */
  lemma NormalizePostcodeChar(d: char)
    ensures NormalizePostcode([d]) == if d == ' ' then [] else [UpperChar(d)]
  {
    assert ToUpper([d]) == [UpperChar(d)];
    WithoutChar(UpperChar(d), ' ');
  }

  /**
   * The AJAX form of the postcode search. It holds no panel or token name, so
   * the later `data.update` adds those without overwriting a search field.
   */
  function SearchForm(postcode: string): (f: Form)
    ensures PostcodeName in f && f[PostcodeName] == Some(postcode)
    ensures "__EVENTTARGET" in f && f["__EVENTTARGET"] == Some(SearchName)
    ensures FormId !in f && forall k :: k in AspxKeys ==> k !in f
  {
    map[ScriptManagerName := Some(FormName + "|" + SearchName),
        "__EVENTTARGET" := Some(SearchName),
        PostcodeName := Some(postcode),
        "__ASYNCPOST" := Some("true")]
  }

  /** The AJAX form that selects an address by its prefixed value; it holds no panel or token name. */
  function AddressForm(value: string): (f: Form)
    ensures AddressName in f && f[AddressName] == Some(value)
    ensures "__EVENTTARGET" in f && f["__EVENTTARGET"] == Some(AddressName)
    ensures FormId !in f && forall k :: k in AspxKeys ==> k !in f
  {
    map[ScriptManagerName := Some(FormName + "|" + AddressName),
        AddressName := Some(value),
        "__EVENTTARGET" := Some(AddressName),
        "__ASYNCPOST" := Some("true")]
  }

  /** The full postback of the submit button; it holds no panel or token name. */
  function NextForm(): (f: Form)
    ensures "__EVENTTARGET" in f && f["__EVENTTARGET"] == Some(NextButtonName)
    ensures FormId !in f && forall k :: k in AspxKeys ==> k !in f
  {
    map["__EVENTTARGET" := Some(NextButtonName)]
  }

  /** Adding the page tokens to the search form keeps its postcode and target, and carries every token. */
  lemma SearchPostCarries(postcode: string, tokens: map<string, string>)
    requires tokens.Keys == (set k | k in AspxKeys)
    ensures var f := SearchForm(postcode) + TokenForm(tokens);
            && f[PostcodeName] == Some(postcode) && f["__EVENTTARGET"] == Some(SearchName)
            && forall k :: k in AspxKeys ==> f[k] == Some(tokens[k])
  {
  }

  /** Adding the extracted fields to the address form keeps the chosen value, and carries every field. */
  lemma AddressPostCarries(value: string, fields: map<string, Option<string>>)
    requires fields.Keys == (set k | k in [FormId] + AspxKeys)
    ensures var f := AddressForm(value) + fields;
            && f[AddressName] == Some(value) && f["__EVENTTARGET"] == Some(AddressName)
            && forall k :: k in fields ==> f[k] == fields[k]
  {
  }

  /**
   * `parse_bin_data`: no `bartec` table, or no four-cell row after the header,
   * is an upstream error; otherwise the records of those rows, in order.
   */
  method ParseBinData(table: Option<seq<seq<string>>>, parseDate: string -> Option<Date>)
    returns (r: Result<seq<BinCollection>, Error>)
    ensures table.None? ==> r == Failure(UpstreamError)
    ensures table.Some? && Records(AfterHeader(table.value), parseDate) == [] ==> r == Failure(UpstreamError)
    ensures table.Some? && Records(AfterHeader(table.value), parseDate) != [] ==>
              r == Success(Records(AfterHeader(table.value), parseDate))
    ensures r.Success? ==> table.Some? && r.value == Records(AfterHeader(table.value), parseDate)
    ensures r.Success? ==> r.value != []
    ensures r.Success? || r == Failure(UpstreamError)
  {
    if table.None? {
      return Failure(UpstreamError);
    }
    var rows := AfterHeader(table.value);
    var bins := CollectRows(rows, parseDate);
    if bins == [] {
      return Failure(UpstreamError);
    }
    return Success(bins);
  }

  /**
   * The address a search response offers for `uprn`: the first address of the
   * selector in its panel fragment with that UPRN, or `None` when the fragment
   * cannot be read, has no selector, or offers no such address. Its UPRN never
   * carries the prefix.
   */
  function MatchIn(search: DeltaResponse, selectIn: string -> Option<seq<SelectOption>>, uprn: string): (m: Option<Address>)
    ensures m.Some? ==> m.value.uprn == uprn && (uprn == [] || uprn[0] != 'U')
    ensures m.Some? ==> PanelFields(search.text).Success? && PanelFields(search.text).value[FormId].Some?
    // found exactly when the fragment's selector offers an address with the UPRN
    ensures m.Some? <==>
              && PanelFields(search.text).Success? && PanelFields(search.text).value[FormId].Some?
              && var select := selectIn(PanelFields(search.text).value[FormId].value);
                 && select.Some?
                 && exists i :: 0 <= i < |ToAddresses(select.value, ExtractUprn)|
                                && ToAddresses(select.value, ExtractUprn)[i].uprn == uprn
    // and it is the first such address
    ensures m.Some? ==>
              && PanelFields(search.text).Success? && PanelFields(search.text).value[FormId].Some?
              && var select := selectIn(PanelFields(search.text).value[FormId].value);
                 && select.Some?
                 && exists i :: 0 <= i < |ToAddresses(select.value, ExtractUprn)|
                                && ToAddresses(select.value, ExtractUprn)[i] == m.value
                                && forall k :: 0 <= k < i ==> ToAddresses(select.value, ExtractUprn)[k].uprn != uprn
  {
    if PanelFields(search.text).Success? && PanelFields(search.text).value[FormId].Some? then
      var select := selectIn(PanelFields(search.text).value[FormId].value);
      if select.Some? then
        OfferedUprnsUnprefixed(select.value);
        FindAddress(ToAddresses(select.value, ExtractUprn), uprn)
      else None
    else None
  }

  /** The panel fields of the search response, and the address matched in them. */
  datatype Match = Match(fields: map<string, Option<string>>, address: Address)

  /**
   * The first half of `get_bin_data`: load the page, search the postcode, and
   * find the caller's UPRN among the offered addresses.
   */
  method SearchAddress(postcode: string, uprn: string, page: PageResponse, search: DeltaResponse,
                       selectIn: string -> Option<seq<SelectOption>>)
    returns (sent: seq<Request>, found: Result<Match, Error>)
    ensures 1 <= |sent| <= 2 && sent[0] == Get(true)
    // each step in the order of the source: a rejected status, a missing hidden input (`None["value"]`),
    // an unreadable search response, a missing panel fragment, or an unoffered UPRN ends the lookup
    ensures if page.status >= 400 then |sent| == 1 && found == Failure(ValidateResponse(page.status).error)
            else if PageTokens(page.inputs).Failure? then |sent| == 1 && found == Failure(Unhandled(TypeError))
            else
              && |sent| == 2
              && sent[1] == Post(SearchForm(NormalizePostcode(postcode)) + TokenForm(PageTokens(page.inputs).value), true)
              && if search.status >= 400 then found == Failure(ValidateResponse(search.status).error)
                 else if PanelFields(search.text).Failure? then found == Failure(Unhandled(IndexError))
                 else if PanelFields(search.text).value[FormId].None? then found == Failure(Unhandled(TypeError))
                 else if MatchIn(search, selectIn, uprn).None? then found == Failure(ClientError)
                 else found == Success(Match(PanelFields(search.text).value, MatchIn(search, selectIn, uprn).value))
    ensures found == Failure(ClientError) ==> |sent| == 2
    ensures found.Success? ==> found.value.address.uprn == uprn && (uprn == [] || uprn[0] != 'U')
  {
    var normalized := NormalizePostcode(postcode);
    sent := [Get(true)];
    var check := ValidateResponse(page.status);
    if check.Fail? {
      return sent, Failure(check.error);
    }
    var tokens := PageTokens(page.inputs);
    if tokens.Failure? {
      return sent, Failure(Unhandled(tokens.error));
    }
    var data := SearchForm(normalized) + TokenForm(tokens.value);
    sent := sent + [Post(data, true)];
    check := ValidateResponse(search.status);
    if check.Fail? {
      return sent, Failure(check.error);
    }

    var _, fields := ExtractAspxFields(search.text, [FormId]);
    if fields.Failure? {
      return sent, Failure(Unhandled(fields.error));
    }
    var fragment := fields.value[FormId];
    if fragment.None? {
      return sent, Failure(Unhandled(TypeError));
    }
    var select := selectIn(fragment.value);
    if select.None? {
      return sent, Failure(ClientError);
    }
    var addresses := CollectAddresses(select.value, ExtractUprn);
    if addresses == [] {
      return sent, Failure(ClientError);
    }
    var matched := FindAddress(addresses, uprn);
    if matched.None? {
      return sent, Failure(ClientError);
    }
    return sent, Success(Match(fields.value, matched.value));
  }

  /**
   * The second half of `get_bin_data`: post the matched address with the
   * search response's fields, then the submit with the address response's
   * fields, and read the schedule from the final page.
   */
  method SelectAndSubmit(matched: Address, fields: map<string, Option<string>>,
                         choice: DeltaResponse, final: TableResponse, parseDate: string -> Option<Date>)
    returns (later: seq<Request>, bins: Result<seq<BinCollection>, Error>)
    ensures 1 <= |later| <= 2 && later[0] == Post(AddressForm(FormatUprn(matched.uprn)) + fields, true)
    ensures if choice.status >= 400 then |later| == 1 && bins == Failure(ValidateResponse(choice.status).error)
            else if PanelFields(choice.text).Failure? then |later| == 1 && bins == Failure(Unhandled(IndexError))
            else
              && |later| == 2 && later[1] == Post(NextForm() + PanelFields(choice.text).value, false)
              && if final.status >= 400 then bins == Failure(ValidateResponse(final.status).error)
                 else if final.table.None? || Records(AfterHeader(final.table.value), parseDate) == [] then
                   bins == Failure(UpstreamError)
                 else bins == Success(Records(AfterHeader(final.table.value), parseDate))
    ensures bins != Failure(ClientError)
    ensures bins.Success? ==> bins.value != []
  {
    later := [Post(AddressForm(FormatUprn(matched.uprn)) + fields, true)];
    var check := ValidateResponse(choice.status);
    if check.Fail? {
      return later, Failure(check.error);
    }
    var _, fields' := ExtractAspxFields(choice.text, [FormId]);
    if fields'.Failure? {
      return later, Failure(Unhandled(fields'.error));
    }
    later := later + [Post(NextForm() + fields'.value, false)];
    check := ValidateResponse(final.status);
    if check.Fail? {
      return later, Failure(check.error);
    }
    bins := ParseBinData(final.table, parseDate);
  }

  /**
   * `get_bin_data(postcode, uprn)`: the four exchanges of one lookup, each
   * response given as an input. `sent` lists the requests in the order they
   * were issued; `selectIn` stands for finding the address `<select>` in the
   * panel fragment, and `parseDate` for `strptime`.
   */
  method GetBinData(postcode: string, uprn: string,
                    page: PageResponse, search: DeltaResponse, choice: DeltaResponse, final: TableResponse,
                    selectIn: string -> Option<seq<SelectOption>>, parseDate: string -> Option<Date>)
    returns (sent: seq<Request>, result: Result<LookupResult, Error>)
    ensures 1 <= |sent| <= 4 && sent[0] == Get(true)
    // each step in the order of the source: a status of 400 or more ends the lookup with that status's error
    // before the next request; so does a missing hidden input (`None["value"]`), an unreadable delta
    // response (the `IndexError` of the extractor), a missing panel fragment, or an unoffered UPRN
    ensures if page.status >= 400 then |sent| == 1 && result == Failure(ValidateResponse(page.status).error)
            else if PageTokens(page.inputs).Failure? then |sent| == 1 && result == Failure(Unhandled(TypeError))
            else
              && |sent| >= 2
              && sent[1] == Post(SearchForm(NormalizePostcode(postcode)) + TokenForm(PageTokens(page.inputs).value), true)
              && if search.status >= 400 then |sent| == 2 && result == Failure(ValidateResponse(search.status).error)
                 else if PanelFields(search.text).Failure? then |sent| == 2 && result == Failure(Unhandled(IndexError))
                 else if PanelFields(search.text).value[FormId].None? then
                   |sent| == 2 && result == Failure(Unhandled(TypeError))
                 else if MatchIn(search, selectIn, uprn).None? then |sent| == 2 && result == Failure(ClientError)
                 else
                   && |sent| >= 3
                   && sent[2] == Post(AddressForm(FormatUprn(uprn)) + PanelFields(search.text).value, true)
                   && if choice.status >= 400 then |sent| == 3 && result == Failure(ValidateResponse(choice.status).error)
                      else if PanelFields(choice.text).Failure? then |sent| == 3 && result == Failure(Unhandled(IndexError))
                      else
                        && |sent| == 4
                        && sent[3] == Post(NextForm() + PanelFields(choice.text).value, false)
                        && if final.status >= 400 then result == Failure(ValidateResponse(final.status).error)
                           else if final.table.None? || Records(AfterHeader(final.table.value), parseDate) == [] then
                             result == Failure(UpstreamError)
                           else
                             result == Success(LookupResult(Records(AfterHeader(final.table.value), parseDate),
                                                            MatchIn(search, selectIn, uprn).value))
    // a client error is raised before the address is posted
    ensures result == Failure(ClientError) ==> |sent| == 2
    // a UPRN written with the prefix is never found
    ensures |uprn| > 0 && uprn[0] == 'U' ==> result.Failure? && |sent| <= 2
    // a result is the first offered address with the caller's UPRN, and a non-empty schedule
    ensures result.Success? ==>
              && |sent| == 4
              && result.value.address == MatchIn(search, selectIn, uprn).value
              && result.value.address.uprn == uprn
              && result.value.binCollections != []
  {
    var found;
    sent, found := SearchAddress(postcode, uprn, page, search, selectIn);
    if found.Failure? {
      return sent, Failure(found.error);
    }
    assert found.value.fields == PanelFields(search.text).value;
    assert found.value.address == MatchIn(search, selectIn, uprn).value;
    var later, bins := SelectAndSubmit(found.value.address, found.value.fields, choice, final, parseDate);
    sent := sent + later;
    assert sent[2] == later[0];
    assert |later| == 2 ==> sent[3] == later[1];
    if bins.Failure? {
      return sent, Failure(bins.error);
    }
    return sent, Success(LookupResult(bins.value, found.value.address));
  }
}
