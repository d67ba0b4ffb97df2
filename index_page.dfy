/**
 * The agent-runner web page: the form's four required fields are validated in a fixed
 * order, the form is posted to the agent endpoint, the streamed response is decoded chunk
 * by chunk into the output panel, and any error is turned into one message for the banner.
 *
 * `fetch`, the body reader and `TextDecoder` are external: the response is an input, and the
 * decoder is a function parameter applied to each chunk.
 */
module IndexPage {
  import opened Wrappers

  /*************************************************************************************
   * Validation
   *************************************************************************************/

  /** The submitted form, as `Object.fromEntries(formData.entries())`: field name to value. */
  type FormData = map<string, string>

  /** `!formData[key]`: a field is missing when it is absent or empty. */
  predicate Missing(formData: FormData, key: string) {
    key !in formData || formData[key] == ""
  }

  /** The required fields in the order they are checked, each with the message it raises. */
  const RequiredFields: seq<(string, string)> := [
    ("openai_api_key", "OpenAI API Key is required"),
    ("github_api_key", "Github API Key is required"),
    ("github_issue_link", "Github Issue Link is required"),
    ("config_filename", "Config is required")
  ]

  /** The message of the first missing field of `fields`, or `None` when none is missing. */
  function FirstMissing(fields: seq<(string, string)>, formData: FormData): Option<string> {
    if fields == [] then None
    else if Missing(formData, fields[0].0) then Some(fields[0].1)
    else FirstMissing(fields[1..], formData)
  }

  /**
   * Nothing is reported exactly when every field is present and non-empty; otherwise the
   * report is the message of a missing field that has no missing field before it.
   */
  lemma {:induction false} FirstMissingSpec(fields: seq<(string, string)>, formData: FormData)
    ensures FirstMissing(fields, formData).None? <==> forall i :: 0 <= i < |fields| ==> !Missing(formData, fields[i].0)
    ensures FirstMissing(fields, formData).Some? ==>
              exists i :: 0 <= i < |fields| && Missing(formData, fields[i].0)
                          && FirstMissing(fields, formData).value == fields[i].1
                          && forall j :: 0 <= j < i ==> !Missing(formData, fields[j].0)
  {
    if fields != [] && !Missing(formData, fields[0].0) {
      var rest := fields[1..];
      FirstMissingSpec(rest, formData);
      if FirstMissing(rest, formData).None? {
        forall i | 0 <= i < |fields| ensures !Missing(formData, fields[i].0) {
          if i > 0 { assert fields[i] == rest[i - 1]; }
        }
      } else {
        var i :| 0 <= i < |rest| && Missing(formData, rest[i].0) && FirstMissing(rest, formData).value == rest[i].1
                 && forall j :: 0 <= j < i ==> !Missing(formData, rest[j].0);
        assert fields[i + 1] == rest[i];
        forall j | 0 <= j < i + 1 ensures !Missing(formData, fields[j].0) {
          if j > 0 { assert fields[j] == rest[j - 1]; }
        }
      }
    }
  }

  /**
   * `validateFormData`: `None` when it resolves, `Some(message)` when it throws
   * `Error(message)`. The checks go field by field in the order of `RequiredFields`.
   */
  function ValidateFormData(formData: FormData): Option<string> {
    if Missing(formData, "openai_api_key") then Some("OpenAI API Key is required")
    else if Missing(formData, "github_api_key") then Some("Github API Key is required")
    else if Missing(formData, "github_issue_link") then Some("Github Issue Link is required")
    else if Missing(formData, "config_filename") then Some("Config is required")
    else None
  }

  /** The chain of checks agrees with the table of required fields, field by field. */
  lemma ValidateFormDataTable(formData: FormData)
    ensures ValidateFormData(formData) == FirstMissing(RequiredFields, formData)
  {
    var rest1 := RequiredFields[1..];
    var rest2 := rest1[1..];
    var rest3 := rest2[1..];
    assert rest3 == [RequiredFields[3]] && rest3[1..] == [];
    assert FirstMissing(rest3, formData) == if Missing(formData, "config_filename") then Some("Config is required") else None;
    assert FirstMissing(rest2, formData)
        == if Missing(formData, "github_issue_link") then Some("Github Issue Link is required") else FirstMissing(rest3, formData);
  }

  /**
   * Validation passes exactly when all four fields are present and non-empty; when several
   * are missing, the message is that of the first in checking order, and it is never empty.
   */
  lemma ValidateFormDataSpec(formData: FormData)
    ensures ValidateFormData(formData).None?
            <==> forall i :: 0 <= i < |RequiredFields| ==> !Missing(formData, RequiredFields[i].0)
    ensures ValidateFormData(formData).Some? ==>
              exists i :: 0 <= i < |RequiredFields| && Missing(formData, RequiredFields[i].0)
                          && ValidateFormData(formData).value == RequiredFields[i].1
                          && forall j :: 0 <= j < i ==> !Missing(formData, RequiredFields[j].0)
    ensures ValidateFormData(formData).Some? ==> ValidateFormData(formData).value != ""
  {
    ValidateFormDataTable(formData);
    FirstMissingSpec(RequiredFields, formData);
  }

  /** A form whose only missing field is the config choice is rejected with `Config is required`. */
  lemma OnlyConfigMissing(formData: FormData)
    requires !Missing(formData, "openai_api_key") && !Missing(formData, "github_api_key")
    requires !Missing(formData, "github_issue_link") && Missing(formData, "config_filename")
    ensures ValidateFormData(formData) == Some("Config is required")
  {
  }

  /*************************************************************************************
   * Error messages
   *************************************************************************************/

  /** What `handleSubmit` can catch. */
  datatype Thrown =
    | ThrownString(text: string)            // a thrown string
    | ThrownObject(message: Option<string>) // an object, e.g. `Error(m)`; `None`: no string message
    | ThrownOther                           // `null`, `undefined`, a number, ...

  const DefaultErrorMessage := "An error occurred"

  /** The message `handleSubmit` puts in the banner for a caught error. */
  function DisplayedError(e: Thrown): (m: string)
    ensures m != ""
    ensures e.ThrownString? && e.text != "" ==> m == e.text
    ensures e.ThrownObject? && e.message.Some? && e.message.value != "" ==> m == e.message.value
    ensures !(e.ThrownString? && e.text != "") && !(e.ThrownObject? && e.message.Some? && e.message.value != "")
            ==> m == DefaultErrorMessage
  {
    match e
    case ThrownString(text) => if text != "" then text else DefaultErrorMessage
    case ThrownObject(message) =>
      if message.Some? && message.value != "" then message.value else DefaultErrorMessage
    case ThrownOther => DefaultErrorMessage
  }

  /** A validation failure is shown with its own message. */
  lemma ValidationMessageShown(formData: FormData)
    requires ValidateFormData(formData).Some?
    ensures DisplayedError(ThrownObject(ValidateFormData(formData))) == ValidateFormData(formData).value
  {
    ValidateFormDataSpec(formData);
  }

  /*************************************************************************************
   * The request
   *************************************************************************************/

  /** One value handed out by the body reader. */
  type Chunk = seq<bv8>

  /** The parts of a `fetch` response the page reads; `body` is what the reader hands out. */
  datatype Response = Response(ok: bool, status: int, statusText: string, body: seq<Chunk>)

  /** The `fetch` call: it rejects (a network error), or resolves with a response. */
  datatype FetchResult = Rejected(error: Thrown) | Resolved(response: Response)

  /** `response.ok` as `fetch` defines it: the status is in the range 200-299. */
  predicate OkMeansSuccessStatus(r: Response) {
    r.ok <==> 200 <= r.status <= 299
  }

  /**
   * `!response.ok || response.status >= 400`: the response is rejected. With `ok` as
   * `fetch` defines it, the status test adds nothing.
   */
  function RequestFails(r: Response): (fails: bool)
    ensures !r.ok ==> fails
    ensures OkMeansSuccessStatus(r) ==> (fails <==> !r.ok)
  {
    !r.ok || r.status >= 400
  }

  /** The running sum of chunk lengths, `receivedLength`. */
  function TotalLength(chunks: seq<Chunk>): nat {
    if chunks == [] then 0 else TotalLength(chunks[..|chunks| - 1]) + |chunks[|chunks| - 1]|
  }

  /** All the bytes of the body, in order. */
  function Flatten(chunks: seq<Chunk>): seq<bv8> {
    if chunks == [] then [] else Flatten(chunks[..|chunks| - 1]) + chunks[|chunks| - 1]
  }

  /** `receivedLength` ends as the number of bytes in the body. */
  lemma {:induction false} TotalLengthFlatten(chunks: seq<Chunk>)
    ensures TotalLength(chunks) == |Flatten(chunks)|
  {
    if chunks != [] {
      TotalLengthFlatten(chunks[..|chunks| - 1]);
    }
  }

  /** The output text: each chunk decoded on its own, the texts concatenated in order. */
  function DecodeAll(chunks: seq<Chunk>, decode: Chunk -> string): string {
    if chunks == [] then "" else DecodeAll(chunks[..|chunks| - 1], decode) + decode(chunks[|chunks| - 1])
  }

  /** Decoding the body in two runs of chunks gives the two texts one after the other. */
  lemma {:induction false} DecodeAllAppend(a: seq<Chunk>, b: seq<Chunk>, decode: Chunk -> string)
    ensures DecodeAll(a + b, decode) == DecodeAll(a, decode) + DecodeAll(b, decode)
    decreases |b|
  {
    if b == [] {
      assert a + b == a;
    } else {
      var n := |b| - 1;
      assert (a + b)[..|a + b| - 1] == a + b[..n];
      DecodeAllAppend(a, b[..n], decode);
    }
  }

  /**
   * When the decoder is a homomorphism on bytes (no character is split between chunks),
   * decoding chunk by chunk gives the text of the whole body.
   */
  lemma {:induction false} DecodeAllWhole(chunks: seq<Chunk>, decode: Chunk -> string)
    requires forall x: Chunk, y: Chunk :: decode(x + y) == decode(x) + decode(y)
    ensures DecodeAll(chunks, decode) == decode(Flatten(chunks))
  {
    if chunks == [] {
      var e: Chunk := [];
      assert e + e == e;
      assert decode(e) == decode(e) + decode(e);
    } else {
      DecodeAllWhole(chunks[..|chunks| - 1], decode);
    }
  }

  /*************************************************************************************
   * The page
   *************************************************************************************/

  /** The `Home` component's state. */
  class Home {
    /** The banner message; `None` is `null`. */
    var validationError: Option<string>
    /** The output panel's text; `None` is `null`, before any request succeeded. */
    var output: Option<string>

    constructor ()
      ensures validationError == None && output == None
    {
      validationError := None;
      output := None;
    }

    /**
     * `makeRequest`: post the form and stream the answer into the output. `thrown` is what
     * it throws; `chunks` and `receivedLength` are its locals when the read loop ends.
     */
    method MakeRequest(formData: FormData, fetched: FetchResult, decode: Chunk -> string)
      returns (thrown: Option<Thrown>, chunks: seq<Chunk>, receivedLength: nat)
      modifies this
      ensures validationError == old(validationError)
      ensures fetched.Rejected? ==> thrown == Some(fetched.error) && output == old(output) && chunks == []
      ensures fetched.Resolved? && RequestFails(fetched.response) ==>
                thrown == Some(ThrownObject(Some(fetched.response.statusText))) && output == old(output) && chunks == []
      ensures fetched.Resolved? && !RequestFails(fetched.response) ==>
                && thrown == None
                && chunks == fetched.response.body
                && receivedLength == TotalLength(chunks) == |Flatten(chunks)|
                && output == Some(DecodeAll(chunks, decode))
    {
      chunks := [];
      receivedLength := 0;
      if fetched.Rejected? {
        return Some(fetched.error), chunks, receivedLength;
      }
      var response := fetched.response;
      if !response.ok || response.status >= 400 {
        return Some(ThrownObject(Some(response.statusText))), chunks, receivedLength;
      }
      output := Some("");
      var i := 0;
      while true
        invariant 0 <= i <= |response.body|
        invariant chunks == response.body[..i]
        invariant receivedLength == TotalLength(chunks)
        invariant output == Some(DecodeAll(chunks, decode))
        invariant validationError == old(validationError)
        decreases |response.body| - i
      {
        if i == |response.body| {
          break;
        }
        var value := response.body[i];
        i := i + 1;
        assert response.body[..i] == chunks + [value];
        chunks := chunks + [value];
        receivedLength := receivedLength + |value|;
        var chunkText := decode(value);
        output := Some(output.value + chunkText);
      }
      assert chunks == response.body;
      TotalLengthFlatten(chunks);
      thrown := None;
    }

    /**
     * `handleSubmit`: validate, clear the banner, make the request; whatever is thrown
     * becomes the banner's message. A banner that is set is never empty.
     */
    method HandleSubmit(formData: FormData, fetched: FetchResult, decode: Chunk -> string)
      modifies this
      ensures ValidateFormData(formData).Some? ==>
                validationError == ValidateFormData(formData) && output == old(output)
      ensures ValidateFormData(formData).None? && fetched.Rejected? ==>
                validationError == Some(DisplayedError(fetched.error)) && output == old(output)
      ensures ValidateFormData(formData).None? && fetched.Resolved? && RequestFails(fetched.response) ==>
                validationError == Some(DisplayedError(ThrownObject(Some(fetched.response.statusText))))
                && output == old(output)
      ensures ValidateFormData(formData).None? && fetched.Resolved? && !RequestFails(fetched.response) ==>
                validationError == None && output == Some(DecodeAll(fetched.response.body, decode))
      ensures validationError.Some? ==> validationError.value != ""
    {
      var invalid := ValidateFormData(formData);
      if invalid.Some? {
        ValidationMessageShown(formData);
        validationError := Some(DisplayedError(ThrownObject(invalid)));
        return;
      }
      validationError := None;
      var thrown, _, _ := MakeRequest(formData, fetched, decode);
      if thrown.Some? {
        validationError := Some(DisplayedError(thrown.value));
      }
    }
  }
}
