/**
 * Decoders for the Stream Management (XEP-0198) elements `<enabled/>`,
 * `<failed/>`, `<resumed/>` and `<a/>`, reading from a pull parser.
 *
 * The parser is an event sequence plus a cursor: the cursor `pos` is at
 * `events[pos]` while `pos < |events|`, and at the end of the document
 * when `pos == |events|`. Advancing the cursor (`parser.next()`) is
 * `pos + 1`. Every decoder returns a `Step`: its result and the cursor it
 * leaves behind.
 */
module StreamManagement {
  import opened Wrappers
  import Decimal

  /** `XMPPError.NAMESPACE`: the stanza error condition namespace of RFC 6120. */
  const ErrorNamespace: string := "urn:ietf:params:xml:ns:xmpp-stanzas"
  /** The namespace of XEP-0198 version 3. */
  const SmNamespace: string := "urn:xmpp:sm:3"
  const EnabledElement: string := "enabled"
  const FailedElement: string := "failed"
  const ResumedElement: string := "resumed"
  const AckAnswerElement: string := "a"
  /** The condition `failed` reports when no error condition child is seen (spelled as in the source). */
  const UnknownCondition: string := "unkown"

  /** The defined stanza error conditions of section 8.3.3 of RFC 6120. */
  const StanzaErrorConditions: set<string> := {
    "bad-request", "conflict", "feature-not-implemented", "forbidden", "gone",
    "internal-server-error", "item-not-found", "jid-malformed", "not-acceptable",
    "not-allowed", "not-authorized", "policy-violation", "recipient-unavailable",
    "redirect", "registration-required", "remote-server-not-found",
    "remote-server-timeout", "resource-constraint", "service-unavailable",
    "subscription-required", "undefined-condition", "unexpected-request"
  }

  /**
   * One pull-parser event. `attributes` holds the attributes without a
   * namespace, which is what `getAttributeValue("", name)` looks up.
   */
  datatype Event =
    | StartTag(name: string, namespace: string, attributes: map<string, string>)
    | EndTag(name: string)
    | Text(text: string)

  datatype DecodeError =
    | NotAtStartTag                      // the cursor is not at a start tag
    | NotAtEndTag                        // the cursor is not at an end tag
    | MalformedAttribute(name: string)   // a mandatory attribute is missing, or a value does not parse
    | EndOfEvents                        // the document ended before the element was closed

  datatype Result<+T> = Ok(value: T) | Err(error: DecodeError)

  /** What a decoder returns, and where it leaves the cursor. */
  datatype Step<+T> = Step(result: Result<T>, cursor: nat)

  datatype Enabled = Enabled(id: Option<string>, resume: bool, location: Option<string>, max: int)
  datatype XmppError = XmppError(condition: string)
  datatype Failed = Failed(error: XmppError)
  datatype Resumed = Resumed(h: int, previd: Option<string>)
  datatype AckAnswer = AckAnswer(h: int)

  // ---------------------------------------------------------------------
  // The cursor and typed attribute reads

  predicate AtStartTag(events: seq<Event>, pos: nat) {
    pos < |events| && events[pos].StartTag?
  }

  predicate AtEndTag(events: seq<Event>, pos: nat) {
    pos < |events| && events[pos].EndTag?
  }

  /** `getAttributeValue("", name)`: the value, or `None` for an absent attribute. */
  function Attribute(e: Event, name: string): Option<string>
    requires e.StartTag?
  {
    if name in e.attributes then Some(e.attributes[name]) else None
  }

  /** The lexical forms of an XML Schema boolean. */
  function ParseBoolean(s: string): Option<bool> {
    if s == "true" || s == "1" then Some(true)
    else if s == "false" || s == "0" then Some(false)
    else None
  }

  /** A boolean attribute with a default for the absent case. */
  function BooleanAttribute(e: Event, name: string, default: bool): Result<bool>
    requires e.StartTag?
  {
    match Attribute(e, name)
    case None => Ok(default)
    case Some(v) =>
      match ParseBoolean(v)
      case Some(b) => Ok(b)
      case None => Err(MalformedAttribute(name))
  }

  /** A 32-bit integer attribute with a default for the absent case. */
  function IntegerAttribute(e: Event, name: string, default: int): Result<int>
    requires e.StartTag?
  {
    match Attribute(e, name)
    case None => Ok(default)
    case Some(v) =>
      match Decimal.ParseInt(v)
      case Some(n) => Ok(n)
      case None => Err(MalformedAttribute(name))
  }

  /** A mandatory 64-bit integer attribute: absent is an error, as is a value that does not parse. */
  function LongAttribute(e: Event, name: string): Result<int>
    requires e.StartTag?
  {
    match Attribute(e, name)
    case None => Err(MalformedAttribute(name))
    case Some(v) =>
      match Decimal.ParseLong(v)
      case Some(n) => Ok(n)
      case None => Err(MalformedAttribute(name))
  }

  // ---------------------------------------------------------------------
  // <enabled/>

  /**
   * `ParseStreamManagement.enabled`: reads the attributes of the start tag
   * at the cursor, advances once, and requires an end tag there.
   */
  function DecodeEnabled(events: seq<Event>, pos: nat): (s: Step<Enabled>)
    ensures !AtStartTag(events, pos) ==> s == Step(Err(NotAtStartTag), pos)
    // success: exactly one advance, onto an end tag
    ensures s.result.Ok? ==> AtStartTag(events, pos) && s.cursor == pos + 1 && AtEndTag(events, pos + 1)
    // id and location are copied verbatim; absent stays absent
    ensures s.result.Ok? ==>
              s.result.value.id == Attribute(events[pos], "id") &&
              s.result.value.location == Attribute(events[pos], "location")
    // resume defaults to false, max to -1
    ensures s.result.Ok? && "resume" !in events[pos].attributes ==> !s.result.value.resume
    ensures s.result.Ok? && "resume" in events[pos].attributes ==>
              ParseBoolean(events[pos].attributes["resume"]) == Some(s.result.value.resume)
    ensures s.result.Ok? && "max" !in events[pos].attributes ==> s.result.value.max == -1
    ensures s.result.Ok? && "max" in events[pos].attributes ==>
              Decimal.ParseInt(events[pos].attributes["max"]) == Some(s.result.value.max)
    // with readable attributes, the outcome depends only on the next event
    ensures AtStartTag(events, pos) &&
            BooleanAttribute(events[pos], "resume", false).Ok? &&
            IntegerAttribute(events[pos], "max", -1).Ok? ==>
              s.cursor == pos + 1 &&
              (s.result.Ok? <==> AtEndTag(events, pos + 1)) &&
              (!AtEndTag(events, pos + 1) ==> s.result == Err(NotAtEndTag))
    // a child element or text content makes it fail
    ensures AtStartTag(events, pos) && pos + 1 < |events| && !events[pos + 1].EndTag? ==> s.result.Err?
  {
    if !AtStartTag(events, pos) then Step(Err(NotAtStartTag), pos)
    else
      var e := events[pos];
      match BooleanAttribute(e, "resume", false)
      case Err(err) => Step(Err(err), pos)
      case Ok(resume) =>
        var id := Attribute(e, "id");
        var location := Attribute(e, "location");
        match IntegerAttribute(e, "max", -1)
        case Err(err) => Step(Err(err), pos)
        case Ok(max) =>
          if AtEndTag(events, pos + 1) then Step(Ok(Enabled(id, resume, location, max)), pos + 1)
          else Step(Err(NotAtEndTag), pos + 1)
  }

  // ---------------------------------------------------------------------
  // <failed/>

  /** A start tag in the stanza error namespace: a candidate condition. */
  predicate IsConditionTag(e: Event) {
    e.StartTag? && e.namespace == ErrorNamespace
  }

  /** The end tag that stops the `failed` scan. */
  predicate IsFailedEnd(e: Event) {
    e.EndTag? && e.name == FailedElement
  }

  /** The index of the first end tag named `failed` at or after `from`. */
  function FirstFailedEnd(events: seq<Event>, from: nat): (r: Option<nat>)
    ensures r.Some? ==>
              from <= r.value < |events| && IsFailedEnd(events[r.value]) &&
              forall j | from <= j < r.value :: !IsFailedEnd(events[j])
    ensures r.None? ==> forall j | from <= j < |events| :: !IsFailedEnd(events[j])
    decreases |events| - from
  {
    if from >= |events| then None
    else if IsFailedEnd(events[from]) then Some(from)
    else FirstFailedEnd(events, from + 1)
  }

  /** The index of the last condition tag in `s`, if any. */
  function LastConditionIndex(s: seq<Event>): (r: Option<nat>)
    ensures r.None? <==> forall j | 0 <= j < |s| :: !IsConditionTag(s[j])
    ensures r.Some? ==>
              r.value < |s| && IsConditionTag(s[r.value]) &&
              forall j | r.value < j < |s| :: !IsConditionTag(s[j])
  {
    if s == [] then None
    else if IsConditionTag(s[|s| - 1]) then Some(|s| - 1)
    else LastConditionIndex(s[..|s| - 1])
  }

  /** The condition reported for the events `s` inside a `failed` element. */
  function Condition(s: seq<Event>): string {
    match LastConditionIndex(s)
    case None => UnknownCondition
    case Some(j) => s[j].name
  }

  lemma ConditionSnoc(s: seq<Event>, e: Event)
    ensures Condition(s + [e]) == if IsConditionTag(e) then e.name else Condition(s)
  {
    assert (s + [e])[..|s|] == s;
  }

  /** What one more event of the scan does to the condition and to the end tag still ahead. */
  lemma ScanStep(events: seq<Event>, pos: nat, i: nat)
    requires pos < i < |events|
    ensures Condition(events[pos + 1..i + 1]) ==
              if IsConditionTag(events[i]) then events[i].name else Condition(events[pos + 1..i])
    ensures !IsFailedEnd(events[i]) ==> FirstFailedEnd(events, i) == FirstFailedEnd(events, i + 1)
  {
    ConditionSnoc(events[pos + 1..i], events[i]);
    assert events[pos + 1..i] + [events[i]] == events[pos + 1..i + 1];
  }

  /**
   * `ParseStreamManagement.failed`: from the start tag at the cursor,
   * advance event by event; every start tag in the error namespace
   * replaces the condition, and the first end tag named `failed` stops
   * the scan. The cursor is left on that end tag.
   */
  method DecodeFailed(events: seq<Event>, pos: nat) returns (s: Step<Failed>)
    ensures !AtStartTag(events, pos) ==> s == Step(Err(NotAtStartTag), pos)
    ensures AtStartTag(events, pos) ==>
              match FirstFailedEnd(events, pos + 1)
              case None => s == Step(Err(EndOfEvents), |events|)
              case Some(k) => s == Step(Ok(Failed(XmppError(Condition(events[pos + 1..k])))), k)
  {
    if !AtStartTag(events, pos) {
      return Step(Err(NotAtStartTag), pos);
    }
    var condition := UnknownCondition;
    var i := pos;
    while true
      invariant pos <= i < |events|
      invariant condition == Condition(events[pos + 1..i + 1])
      invariant FirstFailedEnd(events, pos + 1) == FirstFailedEnd(events, i + 1)
      decreases |events| - i
    {
      i := i + 1;
      if i == |events| {
        return Step(Err(EndOfEvents), i);
      }
      ScanStep(events, pos, i);
      match events[i]
      case StartTag(name, namespace, _) =>
        if namespace == ErrorNamespace {
          condition := name;
        }
      case EndTag(name) =>
        if name == FailedElement {
          break;
        }
      case Text(_) =>
    }
    return Step(Ok(Failed(XmppError(condition))), i);
  }

  /** The condition is the name of the last condition tag, wherever the earlier ones are. */
  lemma LastConditionWins(s: seq<Event>, j: nat)
    requires j < |s| && IsConditionTag(s[j])
    requires forall k | j < k < |s| :: !IsConditionTag(s[k])
    ensures Condition(s) == s[j].name
  {
  }

  /** Without any condition tag the condition is the placeholder. */
  lemma NoConditionIsUnknown(s: seq<Event>)
    requires forall k | 0 <= k < |s| :: !IsConditionTag(s[k])
    ensures Condition(s) == UnknownCondition
  {
  }

  /**
   * The placeholder is none of the conditions RFC 6120 defines. This is a
   * fact about the constants only: a child element actually named `unkown`
   * in the error namespace is reported the same way as no condition at all.
   */
  lemma UnknownIsNotAStanzaCondition()
    ensures UnknownCondition !in StanzaErrorConditions
  {
  }

  /** Two condition children: the second one is reported. */
  lemma SecondOfTwoConditionsWins(a: string, b: string, attrs: map<string, string>, tail: seq<Event>)
    requires forall k | 0 <= k < |tail| :: !IsConditionTag(tail[k])
    ensures Condition([StartTag(a, ErrorNamespace, attrs), EndTag(a), StartTag(b, ErrorNamespace, attrs), EndTag(b)] + tail) == b
  {
    var s := [StartTag(a, ErrorNamespace, attrs), EndTag(a), StartTag(b, ErrorNamespace, attrs), EndTag(b)] + tail;
    assert s[2] == StartTag(b, ErrorNamespace, attrs);
    assert forall k | 2 < k < |s| :: !IsConditionTag(s[k]) by {
      forall k | 2 < k < |s| ensures !IsConditionTag(s[k]) {
        if k >= 4 { assert s[k] == tail[k - 4]; }
      }
    }
    LastConditionWins(s, 2);
  }

  // ---------------------------------------------------------------------
  // <resumed/> and <a/>

  /** `ParseStreamManagement.resumed`: reads `h` (mandatory) and `previd` at the cursor; no advance. */
  function DecodeResumed(events: seq<Event>, pos: nat): (s: Step<Resumed>)
    ensures s.cursor == pos
    ensures !AtStartTag(events, pos) ==> s.result == Err(NotAtStartTag)
    ensures AtStartTag(events, pos) && "h" !in events[pos].attributes ==> s.result == Err(MalformedAttribute("h"))
    ensures (AtStartTag(events, pos) && "h" in events[pos].attributes &&
             Decimal.ParseLong(events[pos].attributes["h"]).None?) ==>
              s.result == Err(MalformedAttribute("h"))
    // a start tag whose `h` parses is decoded
    ensures (AtStartTag(events, pos) && "h" in events[pos].attributes &&
             Decimal.ParseLong(events[pos].attributes["h"]).Some?) ==>
              s.result.Ok?
    ensures s.result.Ok? ==>
              AtStartTag(events, pos) && "h" in events[pos].attributes &&
              Decimal.ParseLong(events[pos].attributes["h"]) == Some(s.result.value.h) &&
              s.result.value.previd == Attribute(events[pos], "previd")
    ensures s.result.Ok? ==> Decimal.LongMin <= s.result.value.h <= Decimal.LongMax
  {
    if !AtStartTag(events, pos) then Step(Err(NotAtStartTag), pos)
    else
      match LongAttribute(events[pos], "h")
      case Err(err) => Step(Err(err), pos)
      case Ok(h) => Step(Ok(Resumed(h, Attribute(events[pos], "previd"))), pos)
  }

  /** `ParseStreamManagement.ackAnswer`: reads the mandatory `h` at the cursor; no advance. */
  function DecodeAckAnswer(events: seq<Event>, pos: nat): (s: Step<AckAnswer>)
    ensures s.cursor == pos
    ensures !AtStartTag(events, pos) ==> s.result == Err(NotAtStartTag)
    ensures AtStartTag(events, pos) && "h" !in events[pos].attributes ==> s.result == Err(MalformedAttribute("h"))
    ensures (AtStartTag(events, pos) && "h" in events[pos].attributes &&
             Decimal.ParseLong(events[pos].attributes["h"]).None?) ==>
              s.result == Err(MalformedAttribute("h"))
    // a start tag whose `h` parses is decoded
    ensures (AtStartTag(events, pos) && "h" in events[pos].attributes &&
             Decimal.ParseLong(events[pos].attributes["h"]).Some?) ==>
              s.result.Ok?
    ensures s.result.Ok? ==>
              AtStartTag(events, pos) && "h" in events[pos].attributes &&
              Decimal.ParseLong(events[pos].attributes["h"]) == Some(s.result.value.h)
    ensures s.result.Ok? ==> Decimal.LongMin <= s.result.value.h <= Decimal.LongMax
  {
    if !AtStartTag(events, pos) then Step(Err(NotAtStartTag), pos)
    else
      match LongAttribute(events[pos], "h")
      case Err(err) => Step(Err(err), pos)
      case Ok(h) => Step(Ok(AckAnswer(h)), pos)
  }

  /** An `h` of 2^64 does not wrap: both decoders reject it. */
  lemma OverflowingHRejected(events: seq<Event>, pos: nat)
    requires AtStartTag(events, pos)
    requires "h" in events[pos].attributes && events[pos].attributes["h"] == "18446744073709551616"
    ensures DecodeResumed(events, pos).result == Err(MalformedAttribute("h"))
    ensures DecodeAckAnswer(events, pos).result == Err(MalformedAttribute("h"))
  {
    Decimal.LongRejectsTwentyDigits("18446744073709551616");
  }

  // ---------------------------------------------------------------------
  // Rendering the elements back into events

  function OptionalAttribute(m: map<string, string>, name: string, v: Option<string>): map<string, string> {
    if v.Some? then m[name := v.value] else m
  }

  /** `<enabled resume=.. id=.. location=.. max=../>`: max is left out when it is the -1 sentinel. */
  function EnabledEvents(x: Enabled): seq<Event> {
    var withResume := map["resume" := if x.resume then "true" else "false"];
    var withId := OptionalAttribute(withResume, "id", x.id);
    var withLocation := OptionalAttribute(withId, "location", x.location);
    var attrs := if x.max == -1 then withLocation else withLocation["max" := Decimal.ToString(x.max)];
    [StartTag(EnabledElement, SmNamespace, attrs), EndTag(EnabledElement)]
  }

  function ResumedEvents(x: Resumed): seq<Event> {
    var attrs := OptionalAttribute(map["h" := Decimal.ToString(x.h)], "previd", x.previd);
    [StartTag(ResumedElement, SmNamespace, attrs), EndTag(ResumedElement)]
  }

  function AckAnswerEvents(x: AckAnswer): seq<Event> {
    [StartTag(AckAnswerElement, SmNamespace, map["h" := Decimal.ToString(x.h)]), EndTag(AckAnswerElement)]
  }

  /** Decoding a rendered `<enabled/>` gives back every field, with the cursor on its end tag. */
  lemma EnabledRoundTrip(x: Enabled)
    requires Decimal.IntMin <= x.max <= Decimal.IntMax
    ensures DecodeEnabled(EnabledEvents(x), 0) == Step(Ok(x), 1)
  {
    var e := EnabledEvents(x)[0];
    assert Attribute(e, "resume") == Some(if x.resume then "true" else "false");
    if x.max != -1 {
      Decimal.ParseIntToString(x.max);
      assert Attribute(e, "max") == Some(Decimal.ToString(x.max));
    }
  }

  lemma ResumedRoundTrip(x: Resumed)
    requires Decimal.LongMin <= x.h <= Decimal.LongMax
    ensures DecodeResumed(ResumedEvents(x), 0) == Step(Ok(x), 0)
  {
    Decimal.ParseLongToString(x.h);
  }

  lemma AckAnswerRoundTrip(x: AckAnswer)
    requires Decimal.LongMin <= x.h <= Decimal.LongMax
    ensures DecodeAckAnswer(AckAnswerEvents(x), 0) == Step(Ok(x), 0)
  {
    Decimal.ParseLongToString(x.h);
  }

  /**
   * A `<failed/>` with two condition children and an unrelated end tag in
   * between: the second condition is reported and the cursor stops on
   * `</failed>`.
   */
  method FailedTwoConditions() returns (s: Step<Failed>)
    ensures s == Step(Ok(Failed(XmppError("item-not-found"))), 6)
  {
    var events := [
      StartTag(FailedElement, SmNamespace, map[]),
      StartTag("unexpected-request", ErrorNamespace, map[]),
      EndTag("unexpected-request"),
      StartTag("item-not-found", ErrorNamespace, map[]),
      EndTag("item-not-found"),
      Text(" "),
      EndTag(FailedElement)
    ];
    s := DecodeFailed(events, 0);
    assert FirstFailedEnd(events, 1) == Some(6) by {
      assert !IsFailedEnd(events[1]) && !IsFailedEnd(events[2]) && !IsFailedEnd(events[3]);
      assert !IsFailedEnd(events[4]) && !IsFailedEnd(events[5]) && IsFailedEnd(events[6]);
    }
    SecondOfTwoConditionsWins("unexpected-request", "item-not-found", map[], [Text(" ")]);
    assert events[1..6] == [
      StartTag("unexpected-request", ErrorNamespace, map[]), EndTag("unexpected-request"),
      StartTag("item-not-found", ErrorNamespace, map[]), EndTag("item-not-found")] + [Text(" ")];
  }
}
