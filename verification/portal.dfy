/**
 * What both scrapers share: the ASP.NET control names of the council's
 * self-service form, the requests a lookup sends, the abstract responses it
 * receives, and the records it extracts.
 */
module Portal {
  import opened Wrappers

  /** The server-issued hidden state tokens that every postback must carry back. */
  const AspxKeys: seq<string> := ["__VIEWSTATE", "__VIEWSTATEGENERATOR", "__EVENTVALIDATION"]

  /** Client id of the address update panel: the key of its fragment in a delta response. */
  const FormId: string := "ctl00_ContentPlaceHolder1_APUP_5683"
  /** Server name of the same update panel. */
  const FormName: string := "ctl00$ContentPlaceHolder1$APUP_5683"
  const PostcodeName: string := "ctl00$ContentPlaceHolder1$FF5683TB"
  const SearchName: string := "ctl00$ContentPlaceHolder1$FF5683BTN"
  const AddressName: string := "ctl00$ContentPlaceHolder1$FF5683DDL"
  const NextButtonName: string := "ctl00$ContentPlaceHolder1$btnSubmit"
  const ScriptManagerName: string := "ctl00$ScriptManager1"

  /** An exception the source does not catch or raise on purpose. */
  datatype Fault =
    | IndexError  // `response_parts[i + 1]` past the end of the split response
    | TypeError   // subscripting or parsing `None`: a hidden input or the panel fragment is missing

  /** A Python dict of form fields; a `None` value is what `data.update` copies from a missing token. */
  type Form = map<string, Option<string>>

  /**
   * A request of the lookup, as handed to the HTTP session. `delta` is the
   * `x-microsoftajax: Delta=…` header flag; the other headers are constant.
   */
  datatype Request = Get(delta: bool) | Post(form: Form, delta: bool)

  /** The initial page: its status and the `value` of each named `<input>` it contains. */
  datatype PageResponse = PageResponse(status: int, inputs: map<string, string>)

  /** A partial-postback (delta) response: its status and its raw `|`-delimited body. */
  datatype DeltaResponse = DeltaResponse(status: int, text: string)

  /**
   * The final page: its status and, if it has a `table` of class `bartec`,
   * the text of the `td` cells of each of its `tr` rows, header row included.
   */
  datatype TableResponse = TableResponse(status: int, table: Option<seq<seq<string>>>)

  /** An `<option>` of the address selector: its `value` attribute (if any) and its text. */
  datatype SelectOption = SelectOption(value: Option<string>, text: string)

  datatype Address = Address(uprn: string, address: string)

  /** A calendar date as `strptime` returns it. */
  datatype Date = Date(year: nat, month: nat, day: nat)

  /** One schedule row: `binType` is the source's `type` key. */
  datatype BinCollection = BinCollection(binType: string, nextCollectionRaw: string, nextCollectionIso: string)

  /** The hidden tokens as a form fragment: every value present, as on the initial page. */
  function TokenForm(tokens: map<string, string>): (f: Form)
    ensures f.Keys == tokens.Keys
    ensures forall k :: k in tokens ==> f[k] == Some(tokens[k])
  {
    map k | k in tokens :: Some(tokens[k])
  }

  /**
   * `{key: soup.find("input", {"name": key})["value"] for key in ASPX_KEYS}`:
   * the three tokens of the initial page; subscripting the `None` that `find`
   * returns for an absent input raises.
   */
  function PageTokens(inputs: map<string, string>): (r: Result<map<string, string>, Fault>)
    ensures r.Success? <==> forall k :: k in AspxKeys ==> k in inputs
    ensures r.Failure? ==> r.error == TypeError
    ensures r.Success? ==> r.value.Keys == (set k | k in AspxKeys)
                           && forall k :: k in r.value ==> r.value[k] == inputs[k]
  {
    if forall k :: k in AspxKeys ==> k in inputs then Success(map k | k in AspxKeys :: inputs[k])
    else Failure(TypeError)
  }
}
