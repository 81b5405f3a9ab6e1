/** core/errors.go: the tagged boundary error, its wire form, and what crossing the wire keeps. */
module Errors {
  import opened Outcomes

  // Values

  datatype Json =
    | Null
    | Bool(b: bool)
    | Num(n: int)
    | Str(s: string)
    | Arr(items: seq<Json>)
    | Obj(fields: map<string, Json>)

  datatype ValidationIssue = ValidationIssue(path: string, reason: string, code: string)

  /** A Go value under Detail. `Other` is any value that is none of the first three (a pointer to
      an issue, a map[string]string, a named string, a number), known by the JSON it marshals to. */
  datatype Value =
    | Typed(issue: ValidationIssue)
    | StringValue(text: string)
    | MapValue(entries: map<string, Value>)
    | Other(json: Json)

  type Detail = map<string, Value>

  datatype Sentinel = NotFound | Unsupported | AlreadyClaimed

  /** The errors that occur in an Unwrap chain. */
  datatype Error =
    | Known(sentinel: Sentinel)
    | Text(text: string)
    | Wrapped(prefix: string, inner: Error)
    | Tagged(ae: AdaptorError)

  datatype AdaptorError = AdaptorError(
    kind: string, retryable: bool, message: string, cause: Option<Error>, detail: Detail)

  const VALIDATION := "validation"
  const SESSION_NOT_FOUND := "session_not_found"
  const UNSUPPORTED := "unsupported"

  const VALID_KINDS: set<string> := {
    VALIDATION, SESSION_NOT_FOUND, "session_closed", "request_failed", "process_failed", "rate_limited",
    UNSUPPORTED, "capability_denied", "adaptor_degraded", "read_only"
  }

  const ZERO := AdaptorError("", false, "", None, map[])

  /** The text of err.Error(). */
  function Message(err: Error): string {
    match err
    case Known(NotFound) => "core: not found"
    case Known(Unsupported) => "core: unsupported by adaptor"
    case Known(AlreadyClaimed) => "core: bead already claimed by another session"
    case Text(text) => text
    case Wrapped(prefix, inner) => prefix + ": " + Message(inner)
    case Tagged(ae) =>
      ae.kind + ": " + ae.message + if ae.cause.Some? then ": " + Message(ae.cause.value) else ""
  }

  /** errors.As for *AdaptorError: the nearest one in the chain. */
  function AsAdaptorError(err: Error): Option<AdaptorError> {
    match err
    case Tagged(ae) => Some(ae)
    case Wrapped(_, inner) => AsAdaptorError(inner)
    case _ => None
  }

  /** What (*AdaptorError).Is says about a sentinel. */
  predicate KindMatches(ae: AdaptorError, target: Sentinel) {
    (target.NotFound? && ae.kind == SESSION_NOT_FOUND) || (target.Unsupported? && ae.kind == UNSUPPORTED)
  }

  /** errors.Is against a sentinel. */
  predicate Is(err: Error, target: Sentinel) {
    match err
    case Known(s) => s == target
    case Text(_) => false
    case Wrapped(_, inner) => Is(inner, target)
    case Tagged(ae) => KindMatches(ae, target) || (ae.cause.Some? && Is(ae.cause.value, target))
  }

  // Encoding

  /** A struct field tagged omitempty. */
  function OmitEmpty(key: string, value: string): map<string, Json> {
    if value == "" then map[] else map[key := Str(value)]
  }

  function IssueJson(issue: ValidationIssue): Json {
    Obj(OmitEmpty("path", issue.path) + map["reason" := Str(issue.reason)] + OmitEmpty("code", issue.code))
  }

  function ValueJson(v: Value): Json {
    match v
    case Typed(issue) => IssueJson(issue)
    case StringValue(text) => Str(text)
    case MapValue(entries) => Obj(map key | key in entries :: ValueJson(entries[key]))
    case Other(json) => json
  }

  function DetailJson(detail: Detail): map<string, Json> {
    map key | key in detail :: ValueJson(detail[key])
  }

  function CauseText(cause: Option<Error>): string {
    if cause.Some? then Message(cause.value) else ""
  }

  function MarshalJSON(e: AdaptorError): Json {
    Obj(map["_kind" := Str(e.kind), "retryable" := Bool(e.retryable), "message" := Str(e.message)]
        + OmitEmpty("cause", CauseText(e.cause))
        + if e.detail == map[] then map[] else map["detail" := Obj(DetailJson(e.detail))])
  }

  // Decoding

  /** A field of the wire struct: absent and null both leave the zero value. */
  function Field(fields: map<string, Json>, key: string): Json {
    if key in fields then fields[key] else Null
  }

  datatype Raw = Raw(kind: string, retryable: bool, message: string, cause: string, detail: Detail)

  function StringOf(j: Json): string {
    if j.Str? then j.s else ""
  }

  predicate StringLike(j: Json) {
    j.Str? || j.Null?
  }

  /** What json.Unmarshal makes of JSON when the target is any. */
  function AnyOf(j: Json): Value {
    match j
    case Str(text) => StringValue(text)
    case Obj(fields) => MapValue(map key | key in fields :: AnyOf(fields[key]))
    case _ => Other(j)
  }

  function Untyped(fields: map<string, Json>): Detail {
    map key | key in fields :: AnyOf(fields[key])
  }

  /** json.Unmarshal into the wire struct. */
  function RawOf(data: Json): Option<Raw> {
    if data.Null? then Some(Raw("", false, "", "", map[]))
    else if !data.Obj? then None
    else
      var kind, retryable, message :=
        Field(data.fields, "_kind"), Field(data.fields, "retryable"), Field(data.fields, "message");
      var cause, detail := Field(data.fields, "cause"), Field(data.fields, "detail");
      if StringLike(kind) && (retryable.Bool? || retryable.Null?) && StringLike(message) && StringLike(cause)
         && (detail.Obj? || detail.Null?)
      then Some(Raw(StringOf(kind), retryable.Bool? && retryable.b, StringOf(message), StringOf(cause),
                    if detail.Obj? then Untyped(detail.fields) else map[]))
      else None
  }

  /** What UnmarshalJSON makes of a receiver; None when it reports an error. */
  function DecodedInto(receiver: AdaptorError, data: Json): Option<AdaptorError> {
    var raw := RawOf(data);
    if raw.None? || raw.value.kind !in VALID_KINDS then None
    else Some(AdaptorError(raw.value.kind, raw.value.retryable, raw.value.message,
                           if raw.value.cause != "" then Some(Text(raw.value.cause)) else receiver.cause,
                           raw.value.detail))
  }

  function Decoded(data: Json): Option<AdaptorError> {
    DecodedInto(ZERO, data)
  }

  /** The error as an object that UnmarshalJSON fills in. */
  class Receiver {
    var kind: string
    var retryable: bool
    var message: string
    var cause: Option<Error>
    var detail: Detail

    constructor ()
      ensures Contents() == ZERO
    {
      kind, retryable, message, cause, detail := "", false, "", None, map[];
    }

    function Contents(): AdaptorError
      reads this
    {
      AdaptorError(kind, retryable, message, cause, detail)
    }

    /** An error leaves the receiver as it was. */
    method UnmarshalJSON(data: Json) returns (ok: bool)
      modifies this
      ensures ok <==> Decoded(data).Some?
      ensures Contents() == if ok then DecodedInto(old(Contents()), data).value else old(Contents())
    {
      var raw := RawOf(data);
      if raw.None? {
        return false;
      }
      if raw.value.kind !in VALID_KINDS {
        return false;
      }
      kind := raw.value.kind;
      retryable := raw.value.retryable;
      message := raw.value.message;
      detail := raw.value.detail;
      if raw.value.cause != "" {
        cause := Some(Text(raw.value.cause));
      }
      ok := true;
    }
  }

  // Validation issues

  const DEFAULT_REASON := "invalid input"

  function Filled(issue: ValidationIssue): ValidationIssue {
    if issue.reason == "" then issue.(reason := DEFAULT_REASON) else issue
  }

  function NewValidationError(issue: ValidationIssue): AdaptorError {
    var filled := Filled(issue);
    var msg := if filled.path != "" then filled.path + ": " + filled.reason else filled.reason;
    AdaptorError(VALIDATION, false, msg, None, map["issue" := Typed(filled)])
  }

  const NO_ISSUE := ValidationIssue("", "", "")

  /** m[key].(string), or "" when it is not one. */
  function StringIn(entries: map<string, Value>, key: string): string {
    if key in entries && entries[key].StringValue? then entries[key].text else ""
  }

  function IssueIn(entries: map<string, Value>): ValidationIssue {
    ValidationIssue(StringIn(entries, "path"), StringIn(entries, "reason"), StringIn(entries, "code"))
  }

  function IssueOfValue(v: Value): (ValidationIssue, bool) {
    match v
    case Typed(issue) => (issue, true)
    case MapValue(entries) => (IssueIn(entries), IssueIn(entries).reason != "")
    case _ => (NO_ISSUE, false)
  }

  function ValidationIssueOf(err: Error): (ValidationIssue, bool) {
    var ae := AsAdaptorError(err);
    if ae.None? || ae.value.kind != VALIDATION || "issue" !in ae.value.detail then (NO_ISSUE, false)
    else IssueOfValue(ae.value.detail["issue"])
  }

  // Crossing the wire

  /** What is left of an error on the other side: its cause is text, its detail what JSON decodes to. */
  function Flattened(e: AdaptorError): AdaptorError {
    var text := CauseText(e.cause);
    e.(cause := if text == "" then None else Some(Text(text)), detail := Untyped(DetailJson(e.detail)))
  }

  /** What each field of an encoded error decodes from. */
  lemma FieldsOfEncoding(e: AdaptorError)
    ensures var fields := MarshalJSON(e).fields;
            && Field(fields, "_kind") == Str(e.kind) && Field(fields, "retryable") == Bool(e.retryable)
            && Field(fields, "message") == Str(e.message)
            && StringLike(Field(fields, "cause")) && StringOf(Field(fields, "cause")) == CauseText(e.cause)
            && Field(fields, "detail") == if e.detail == map[] then Null else Obj(DetailJson(e.detail))
  {
  }

  lemma RawOfEncoding(e: AdaptorError)
    ensures RawOf(MarshalJSON(e))
         == Some(Raw(e.kind, e.retryable, e.message, CauseText(e.cause), Untyped(DetailJson(e.detail))))
  {
    FieldsOfEncoding(e);
  }

  /** Exactly the errors of a canonical kind can be read back, and what comes back keeps kind,
      retry flag and message. */
  lemma DecodeOfEncode(e: AdaptorError)
    ensures Decoded(MarshalJSON(e)).Some? <==> e.kind in VALID_KINDS
    ensures e.kind in VALID_KINDS ==> Decoded(MarshalJSON(e)) == Some(Flattened(e))
  {
    RawOfEncoding(e);
  }

  /** Decoding into any and encoding again gives the same JSON. */
  lemma {:induction false} AnyKeepsJson(j: Json)
    ensures ValueJson(AnyOf(j)) == j
  {
    if j.Obj? {
      forall key | key in j.fields ensures ValueJson(AnyOf(j.fields[key])) == j.fields[key] {
        AnyKeepsJson(j.fields[key]);
      }
      assert (map key | key in j.fields :: ValueJson(AnyOf(j.fields[key]))) == j.fields;
    }
  }

  lemma DetailKeepsJson(detail: Detail)
    ensures DetailJson(Untyped(DetailJson(detail))) == DetailJson(detail)
  {
    forall key | key in detail ensures ValueJson(AnyOf(ValueJson(detail[key]))) == ValueJson(detail[key]) {
      AnyKeepsJson(ValueJson(detail[key]));
    }
  }

  /** One trip is as good as many: encoding what was decoded gives the same JSON. */
  lemma EncodeAgain(e: AdaptorError)
    requires e.kind in VALID_KINDS
    ensures Decoded(MarshalJSON(e)).Some?
    ensures MarshalJSON(Decoded(MarshalJSON(e)).value) == MarshalJSON(e)
  {
    DecodeOfEncode(e);
    DetailKeepsJson(e.detail);
    assert CauseText(Flattened(e).cause) == CauseText(e.cause);
    assert Flattened(e).detail == map[] <==> e.detail == map[] by {
      assert Flattened(e).detail.Keys == e.detail.Keys;
    }
  }

  /** A string that does not look like one to a type assertion. */
  predicate HiddenString(entries: map<string, Value>, key: string) {
    key in entries && entries[key].Other? && entries[key].json.Str? && entries[key].json.s != ""
  }

  /** The values under "issue" that read differently after the trip: a typed issue without a
      reason, a map with a string of a named type in one of the three fields, and any other type
      that marshals to an object with one of them. */
  predicate ReadsDifferently(v: Value) {
    match v
    case Typed(issue) => issue.reason == ""
    case StringValue(_) => false
    case MapValue(entries) =>
      HiddenString(entries, "path") || HiddenString(entries, "reason") || HiddenString(entries, "code")
    case Other(json) => json.Obj? && IssueIn(Untyped(json.fields)) != NO_ISSUE
  }

  lemma StringAfter(v: Value)
    ensures AnyOf(ValueJson(v)).StringValue? <==> v.StringValue? || (v.Other? && v.json.Str?)
    ensures AnyOf(ValueJson(v)).StringValue? ==> AnyOf(ValueJson(v)).text == if v.StringValue? then v.text else v.json.s
  {
    match v
    case Typed(issue) => assert ValueJson(v) == IssueJson(issue);
    case MapValue(_) => assert ValueJson(v).Obj?;
    case _ =>
  }

  lemma StringSurvives(entries: map<string, Value>, key: string)
    ensures StringIn(Untyped(DetailJson(entries)), key) == StringIn(entries, key) <==> !HiddenString(entries, key)
  {
    if key in entries {
      assert Untyped(DetailJson(entries))[key] == AnyOf(ValueJson(entries[key]));
      StringAfter(entries[key]);
    }
  }

  lemma MapSurvives(entries: map<string, Value>)
    ensures AnyOf(ValueJson(MapValue(entries))) == MapValue(Untyped(DetailJson(entries)))
    ensures IssueIn(Untyped(DetailJson(entries))) == IssueIn(entries) <==> !ReadsDifferently(MapValue(entries))
  {
    assert ValueJson(MapValue(entries)) == Obj(DetailJson(entries));
    assert AnyOf(Obj(DetailJson(entries))) == MapValue(Untyped(DetailJson(entries)));
    StringSurvives(entries, "path");
    StringSurvives(entries, "reason");
    StringSurvives(entries, "code");
  }

  lemma IssueSurvives(issue: ValidationIssue)
    ensures AnyOf(IssueJson(issue)).MapValue?
    ensures IssueIn(AnyOf(IssueJson(issue)).entries) == issue
  {
    var fields := IssueJson(issue).fields;
    var entries := AnyOf(IssueJson(issue)).entries;
    assert entries == Untyped(fields);
    assert StringIn(entries, "path") == issue.path;
    assert StringIn(entries, "reason") == issue.reason;
    assert StringIn(entries, "code") == issue.code;
  }

  lemma ValueSurvivesIff(v: Value)
    ensures IssueOfValue(AnyOf(ValueJson(v))) == IssueOfValue(v) <==> !ReadsDifferently(v)
  {
    match v
    case Typed(issue) => IssueSurvives(issue);
    case StringValue(_) =>
    case MapValue(entries) => MapSurvives(entries);
    case Other(json) =>
      if json.Obj? {
        assert AnyOf(json) == MapValue(Untyped(json.fields));
      }
  }

  /** The typed and the wire path give the same answer exactly unless a value under "issue" is of
      a kind that reads differently after the trip. */
  lemma PathsAgreeIff(e: AdaptorError)
    requires e.kind in VALID_KINDS
    ensures Decoded(MarshalJSON(e)).Some?
    ensures ValidationIssueOf(Tagged(Decoded(MarshalJSON(e)).value)) == ValidationIssueOf(Tagged(e))
       <==> !(e.kind == VALIDATION && "issue" in e.detail && ReadsDifferently(e.detail["issue"]))
  {
    DecodeOfEncode(e);
    FlattenedAgreesIff(e, "issue");
  }

  lemma FlattenedAgreesIff(e: AdaptorError, key: string)
    ensures key in Flattened(e).detail <==> key in e.detail
    ensures key in e.detail ==>
              (IssueOfValue(Flattened(e).detail[key]) == IssueOfValue(e.detail[key])
               <==> !ReadsDifferently(e.detail[key]))
  {
    if key in e.detail {
      assert Flattened(e).detail[key] == AnyOf(ValueJson(e.detail[key]));
      ValueSurvivesIff(e.detail[key]);
    }
  }

  /** The canonical constructor fills the reason in, so an issue built with it reads the same on
      both sides, however deep it is wrapped. */
  lemma NewValidationErrorCrosses(issue: ValidationIssue, err: Error)
    requires AsAdaptorError(err) == Some(NewValidationError(issue))
    ensures ValidationIssueOf(err) == (Filled(issue), true)
    ensures Decoded(MarshalJSON(NewValidationError(issue))).Some?
    ensures ValidationIssueOf(Tagged(Decoded(MarshalJSON(NewValidationError(issue))).value)) == (Filled(issue), true)
  {
    PathsAgreeIff(NewValidationError(issue));
  }

  /** Over the wire a sentinel is matched exactly when the kind stands for it; a match that came
      from the cause is gone. */
  lemma MatchesThatSurvive(e: AdaptorError, target: Sentinel)
    requires e.kind in VALID_KINDS
    ensures Decoded(MarshalJSON(e)).Some?
    ensures Is(Tagged(Decoded(MarshalJSON(e)).value), target) <==> KindMatches(e, target)
    ensures Is(Tagged(Decoded(MarshalJSON(e)).value), target) ==> Is(Tagged(e), target)
  {
    DecodeOfEncode(e);
  }

  /** So a claim that lost its race is recognised on this side only. */
  lemma AlreadyClaimedIsLost(message: string)
    ensures var e := AdaptorError(VALIDATION, false, message, Some(Known(AlreadyClaimed)), map[]);
            Is(Tagged(e), AlreadyClaimed) && Decoded(MarshalJSON(e)).Some?
            && !Is(Tagged(Decoded(MarshalJSON(e)).value), AlreadyClaimed)
  {
    MatchesThatSurvive(AdaptorError(VALIDATION, false, message, Some(Known(AlreadyClaimed)), map[]), AlreadyClaimed);
  }

  /** Decoding into a used receiver forgets what it held, except a cause the wire does not
      replace. */
  lemma UsedReceiverIffNoCauseLeft(receiver: AdaptorError, e: AdaptorError)
    requires e.kind in VALID_KINDS
    ensures DecodedInto(receiver, MarshalJSON(e)) == Decoded(MarshalJSON(e))
       <==> CauseText(e.cause) != "" || receiver.cause.None?
  {
    RawOfEncoding(e);
  }

  // In plain terms

  /** The ten kinds. */
  lemma KindsAre(kind: string)
    ensures kind in VALID_KINDS <==> kind in [
              "validation", "session_not_found", "session_closed", "request_failed", "process_failed",
              "rate_limited", "unsupported", "capability_denied", "adaptor_degraded", "read_only"]
  {
  }

  /** A tagged error stands for a sentinel by its kind, or wraps it. */
  lemma SentinelLaw(ae: AdaptorError, target: Sentinel)
    ensures Is(Tagged(ae), target) <==>
              || (target == NotFound && ae.kind == "session_not_found")
              || (target == Unsupported && ae.kind == "unsupported")
              || (ae.cause.Some? && Is(ae.cause.value, target))
  {
  }

  /** An error's text: kind, message and, if there is one, cause. */
  lemma TextLaw(ae: AdaptorError)
    ensures ae.cause.None? ==> Message(Tagged(ae)) == ae.kind + ": " + ae.message
    ensures ae.cause.Some? ==> Message(Tagged(ae)) == ae.kind + ": " + ae.message + ": " + Message(ae.cause.value)
  {
    if ae.cause.Some? {
      var text := Message(ae.cause.value);
      assert ae.kind + ": " + ae.message + (": " + text) == ae.kind + ": " + ae.message + ": " + text;
    } else {
      assert ae.kind + ": " + ae.message + "" == ae.kind + ": " + ae.message;
    }
  }

  /** The wire form: three fields always, the cause's text and the detail when there is something. */
  lemma WireForm(e: AdaptorError)
    ensures var wire := MarshalJSON(e).fields; var cause := if e.cause.Some? then Message(e.cause.value) else "";
            && "_kind" in wire && wire["_kind"] == Str(e.kind) && "message" in wire && wire["message"] == Str(e.message)
            && "retryable" in wire && wire["retryable"] == Bool(e.retryable)
            && ("cause" in wire <==> cause != "") && (cause != "" ==> wire["cause"] == Str(cause))
            && ("detail" in wire <==> e.detail != map[])
            && wire.Keys <= {"_kind", "retryable", "message", "cause", "detail"}
    ensures e.detail != map[] ==>
              && MarshalJSON(e).fields["detail"].Obj? && MarshalJSON(e).fields["detail"].fields.Keys == e.detail.Keys
              && forall key | key in e.detail :: MarshalJSON(e).fields["detail"].fields[key] == ValueJson(e.detail[key])
  {
  }

  /** An issue's wire form: the reason always, path and code when there is one. */
  lemma IssueForm(issue: ValidationIssue)
    ensures var wire := IssueJson(issue).fields;
            && "reason" in wire && wire["reason"] == Str(issue.reason)
            && ("path" in wire <==> issue.path != "") && (issue.path != "" ==> wire["path"] == Str(issue.path))
            && ("code" in wire <==> issue.code != "") && (issue.code != "" ==> wire["code"] == Str(issue.code))
            && wire.Keys <= {"path", "reason", "code"}
  {
  }

  /** The canonical constructor: a validation error that is not to be retried, saying where and why,
      with the issue in its detail and a reason in any case. */
  lemma NewValidationErrorMeans(issue: ValidationIssue)
    ensures var e := NewValidationError(issue);
            var reason := if issue.reason == "" then "invalid input" else issue.reason;
            && e.kind == "validation" && !e.retryable && e.cause.None?
            && (issue.path == "" ==> e.message == reason)
            && (issue.path != "" ==> e.message == issue.path + ": " + reason)
            && e.detail == map["issue" := Typed(ValidationIssue(issue.path, reason, issue.code))]
  {
  }

  /** Only a validation error has an issue: a typed one as it is, a map's three strings if one is a
      reason, and nothing else. The nearest tagged error counts, however wrapped. */
  lemma IssueOfMeans(ae: AdaptorError, prefix: string)
    ensures ValidationIssueOf(Wrapped(prefix, Tagged(ae))) == ValidationIssueOf(Tagged(ae))
    ensures ae.kind != "validation" || "issue" !in ae.detail ==>
              ValidationIssueOf(Tagged(ae)) == (ValidationIssue("", "", ""), false)
    ensures ae.kind == "validation" && "issue" in ae.detail ==>
              match ae.detail["issue"]
              case Typed(issue) => ValidationIssueOf(Tagged(ae)) == (issue, true)
              case MapValue(m) =>
                var reason := if "reason" in m && m["reason"].StringValue? then m["reason"].text else "";
                var path := if "path" in m && m["path"].StringValue? then m["path"].text else "";
                var code := if "code" in m && m["code"].StringValue? then m["code"].text else "";
                ValidationIssueOf(Tagged(ae)) == (ValidationIssue(path, reason, code), reason != "")
              case _ => ValidationIssueOf(Tagged(ae)) == (ValidationIssue("", "", ""), false)
  {
  }

  /** What can be decoded: an object whose fields have the right types or are missing or null, and
      whose kind is canonical. */
  lemma DecodableMeans(data: Json)
    ensures data.Obj? ==>
              var f := data.fields;
              (Decoded(data).Some? <==>
                && "_kind" in f && f["_kind"].Str? && f["_kind"].s in VALID_KINDS
                && ("message" in f ==> f["message"].Str? || f["message"].Null?)
                && ("cause" in f ==> f["cause"].Str? || f["cause"].Null?)
                && ("retryable" in f ==> f["retryable"].Bool? || f["retryable"].Null?)
                && ("detail" in f ==> f["detail"].Obj? || f["detail"].Null?))
    ensures !data.Obj? ==> Decoded(data).None?
  {
    EmptyIsNoKind("");
  }

  /** What is missing or null decodes as false, as no text, as no cause and as no detail. */
  lemma DecodedMeans(fields: map<string, Json>)
    requires Decoded(Obj(fields)).Some?
    ensures var e := Decoded(Obj(fields)).value;
            && "_kind" in fields && fields["_kind"] == Str(e.kind)
            && e.retryable == ("retryable" in fields && fields["retryable"] == Bool(true))
            && e.message == (if "message" in fields && fields["message"].Str? then fields["message"].s else "")
            && e.cause == (if "cause" in fields && fields["cause"].Str? && fields["cause"].s != ""
                           then Some(Text(fields["cause"].s)) else None)
            && e.detail.Keys == (if "detail" in fields && fields["detail"].Obj?
                                 then fields["detail"].fields.Keys else {})
  {
    DecodableMeans(Obj(fields));
  }

  lemma EmptyIsNoKind(kind: string)
    requires kind == ""
    ensures kind !in VALID_KINDS
  {
  }
}
