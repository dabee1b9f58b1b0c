/** Acting on the result of a flow: a failed one becomes an HTTP error whose status the
    flow may have chosen by prefixing its message. */
module FlowResult {
  import opened Options
  import opened PyText

  /** What a dict yields for a key: nothing, a string, or some other value. */
  datatype Field = Missing | Text(s: string) | Falsy | Truthy

  /** The value under `data` or `result`. */
  datatype Payload = NotDict | Dict(error: Field, message: Field)

  datatype Envelope = Envelope(status: string, error: Field, data: Payload, result: Payload)

  datatype Outcome = Returned(envelope: Envelope) | HttpError(code: int, detail: string)

  predicate IsTruthy(f: Field) {
    f.Truthy? || (f.Text? && f.s != "")
  }

  /** A non-empty string. */
  predicate Usable(f: Field) {
    f.Text? && f.s != ""
  }

  function Nested(p: Payload): Field {
    if p.NotDict? then Missing else if IsTruthy(p.error) then p.error else p.message
  }

  /** The best available error string of a failed envelope. */
  function FailureMessage(e: Envelope): string {
    if Usable(e.error) then e.error.s
    else if Usable(Nested(e.data)) then Nested(e.data).s
    else if Usable(Nested(e.result)) then Nested(e.result).s
    else ""
  }

  predicate IsDigit(c: char) {
    '0' <= c <= '9'
  }

  /** Digits with single underscores between them, as `int()` reads them. */
  function ReadDigits(s: string): Option<nat> {
    if s == [] || !IsDigit(s[|s| - 1]) then None
    else
      var d := s[|s| - 1] as int - '0' as int;
      if |s| == 1 then Some(d)
      else
        match ReadDigits(if s[|s| - 2] == '_' then s[..|s| - 2] else s[..|s| - 1])
        case None => None
        case Some(n) => Some(10 * n + d)
  }

  /** `int(s)`, or `None` where it raises `ValueError`. */
  function ReadInt(s: string): Option<int> {
    var t := Strip(s);
    if t != [] && (t[0] == '-' || t[0] == '+') then
      match ReadDigits(t[1..])
      case None => None
      case Some(n) =>
        var value: int := n;
        Some(if t[0] == '-' then -value else value)
    else
      match ReadDigits(t)
      case None => None
      case Some(n) => Some(n)
  }

  const PREFIX := "HTTP_"

  function Signalled(error: string): Outcome {
    var i := IndexOf(error, ':');
    match ReadInt(Remove(error[..i], PREFIX))
    case None => HttpError(500, error)
    case Some(code) => HttpError(code, if i < |error| then error[i + 1..] else error)
  }

  /** What a route that ran the flow sees. */
  function RunFlowOrRaise(flowName: string, e: Envelope): Outcome {
    if e.status == "FAILED" then
      var error := FailureMessage(e);
      if PREFIX <= error then Signalled(error)
      else HttpError(500, if error != "" then error else flowName + " failed")
    else Returned(e)
  }

  // ---- the other direction: how a flow signals a status ----

  function Decimal(n: nat): (s: string)
    ensures s != [] && forall i :: 0 <= i < |s| ==> IsDigit(s[i])
  {
    var last := [('0' as int + n % 10) as char];
    if n < 10 then last else Decimal(n / 10) + last
  }

  function ShowInt(code: int): string {
    if code < 0 then "-" + Decimal(-code) else Decimal(code)
  }

  function Signal(code: int, message: string): string {
    PREFIX + ShowInt(code) + ":" + message
  }

  lemma {:induction false} DecimalReads(n: nat)
    ensures ReadDigits(Decimal(n)) == Some(n)
  {
    var s := Decimal(n);
    assert s[|s| - 1] as int - '0' as int == n % 10;
    if n >= 10 {
      DecimalReads(n / 10);
      assert s[..|s| - 1] == Decimal(n / 10);
      assert IsDigit(s[|s| - 2]);
    }
  }

  lemma ShownReads(code: int)
    ensures ReadInt(ShowInt(code)) == Some(code)
  {
    var s := ShowInt(code);
    assert !IsSpace(s[0]) && !IsSpace(s[|s| - 1]);
    TrimFixedExactly(s, IsSpace);
    DecimalReads(if code < 0 then -code else code);
    if code < 0 { assert s[1..] == Decimal(-code); }
  }

  lemma NoPrefix(s: string)
    requires 'H' !in s
    ensures !(PREFIX <= s)
  {
    if s != [] {
      assert s[0] in s;
      assert PREFIX[0] == 'H';
    }
  }

  lemma {:induction false} RemoveAbsent(s: string)
    requires 'H' !in s
    ensures Remove(s, PREFIX) == s
  {
    if s != [] {
      NoPrefix(s);
      RemoveAbsent(s[1..]);
    }
  }

  lemma IndexOfFirst(s: string, c: char, i: nat)
    requires i < |s| && s[i] == c && c !in s[..i]
    ensures IndexOf(s, c) == i
  {
    var j := IndexOf(s, c);
  }

  lemma ShownIsPlain(code: int)
    ensures ':' !in ShowInt(code) && 'H' !in ShowInt(code)
  {
    var s := ShowInt(code);
    assert forall i :: 0 <= i < |s| ==> IsDigit(s[i]) || s[i] == '-';
  }

  lemma HeadReads(code: int)
    ensures ':' !in PREFIX + ShowInt(code)
    ensures ReadInt(Remove(PREFIX + ShowInt(code), PREFIX)) == Some(code)
  {
    var shown := ShowInt(code);
    ShownIsPlain(code);
    RemoveAbsent(shown);
    assert (PREFIX + shown)[|PREFIX|..] == shown;
    ShownReads(code);
  }

  /** A text is cut at the first colon. */
  lemma CutAtColon(head: string, message: string)
    requires ':' !in head
    ensures var error := head + ":" + message;
      IndexOf(error, ':') == |head| && error[..|head|] == head && error[|head| + 1..] == message
  {
    var error := head + ":" + message;
    assert error[..|head|] == head && error[|head|] == ':';
    IndexOfFirst(error, ':', |head|);
  }

  /** For every code and message, colons included, the signalled status and message come
      back exactly. */
  lemma SignalReads(code: int, message: string)
    ensures PREFIX <= Signal(code, message)
    ensures Signalled(Signal(code, message)) == HttpError(code, message)
  {
    HeadReads(code);
    CutAtColon(PREFIX + ShowInt(code), message);
    assert PREFIX <= PREFIX + ShowInt(code) <= Signal(code, message);
  }

  /** A payload offers message `m`: under `error`, or under `message` when `error` is falsy. */
  ghost predicate Offers(p: Payload, m: string) {
    p.Dict? && (p.error == Text(m) || ((p.error.Missing? || p.error.Falsy? || p.error == Text("")) && p.message == Text(m)))
  }

  /** The field is not a string, or an empty one. */
  ghost predicate SaysNothing(f: Field) {
    !f.Text? || f.s == ""
  }

  /** A payload offers no message at all; a truthy `error` that is no string hides `message`. */
  ghost predicate OffersNothing(p: Payload) {
    forall m: string :: m != "" ==> !Offers(p, m)
  }

  /** The failure message is `m` exactly when `m` stands at top level, or under `data` with
      nothing usable above it, or under `result` with nothing usable before it. */
  lemma MessageFoundExactly(e: Envelope, m: string)
    requires m != ""
    ensures FailureMessage(e) == m <==>
      || e.error == Text(m)
      || (SaysNothing(e.error) && Offers(e.data, m))
      || (SaysNothing(e.error) && OffersNothing(e.data) && Offers(e.result, m))
  {
    forall p: Payload, n: string | n != "" ensures Offers(p, n) <==> Nested(p) == Text(n) {}
    if Usable(Nested(e.data)) { assert Offers(e.data, Nested(e.data).s); }
  }

  /** A status signalled at any of the three places reaches the client as it was meant. */
  lemma SignalReachesClient(flowName: string, e: Envelope, code: int, message: string)
    requires e.status == "FAILED"
    requires var m := Signal(code, message);
      || e.error == Text(m)
      || (SaysNothing(e.error) && Offers(e.data, m))
      || (SaysNothing(e.error) && OffersNothing(e.data) && Offers(e.result, m))
    ensures RunFlowOrRaise(flowName, e) == HttpError(code, message)
  {
    SignalReads(code, message);
    assert Signal(code, message)[0] == 'H';
    MessageFoundExactly(e, Signal(code, message));
  }

  // ---- what `int()` makes of a text ----

  /** Digits, with single underscores between them. */
  ghost predicate Grouped(s: string) {
    && s != [] && s[0] != '_' && s[|s| - 1] != '_'
    && (forall i :: 0 <= i < |s| ==> s[i] in "0123456789_")
    && (forall i :: 0 <= i < |s| - 1 ==> !(s[i] == '_' && s[i + 1] == '_'))
  }

  /** The number in decimal notation, underscores not counting. */
  function ValueOf(s: string): int {
    if s == [] then 0
    else if s[|s| - 1] == '_' then ValueOf(s[..|s| - 1])
    else 10 * ValueOf(s[..|s| - 1]) + (s[|s| - 1] as int - 48)
  }

  lemma {:induction false} ReadDigitsExactly(s: string)
    ensures ReadDigits(s).Some? <==> Grouped(s)
    ensures Grouped(s) ==> ReadDigits(s).value == ValueOf(s)
  {
    if |s| >= 2 && IsDigit(s[|s| - 1]) {
      var front := s[..|s| - 1];
      if s[|s| - 2] == '_' {
        var more := s[..|s| - 2];
        assert front[..|front| - 1] == more;
        ReadDigitsExactly(more);
        GroupedFurther(more, s);
      } else {
        ReadDigitsExactly(front);
        GroupedBefore(front, s);
      }
    }
  }

  lemma GroupedFurther(more: string, s: string)
    requires |s| >= 2 && more == s[..|s| - 2] && s[|s| - 2] == '_' && IsDigit(s[|s| - 1])
    ensures Grouped(more) <==> Grouped(s)
  {
    if Grouped(s) {
      var k := |s| - 3;
      assert s[0] != '_' && s[k + 1] == '_';
      assert s[k] != '_';
    }
    if Grouped(more) {
      forall i | 0 <= i < |s| - 1 ensures !(s[i] == '_' && s[i + 1] == '_') {
        if i < |more| - 1 { assert !(more[i] == '_' && more[i + 1] == '_'); }
      }
      forall i | 0 <= i < |s| ensures s[i] in "0123456789_" {
        if i < |more| { assert more[i] in "0123456789_"; }
      }
    }
  }

  lemma GroupedBefore(front: string, s: string)
    requires |s| >= 2 && front == s[..|s| - 1] && s[|s| - 2] != '_' && IsDigit(s[|s| - 1])
    ensures Grouped(front) <==> Grouped(s)
  {
    if Grouped(front) {
      forall i | 0 <= i < |s| - 1 ensures !(s[i] == '_' && s[i + 1] == '_') {
        if i < |front| - 1 { assert !(front[i] == '_' && front[i + 1] == '_'); }
      }
      forall i | 0 <= i < |s| ensures s[i] in "0123456789_" {
        if i < |front| { assert front[i] in "0123456789_"; }
      }
    }
  }

  /** The text is a number with at most one sign before its digits. */
  ghost predicate SignedText(t: string, code: int) {
    || (Grouped(t) && code == ValueOf(t))
    || (t != [] && t[0] == '+' && Grouped(t[1..]) && code == ValueOf(t[1..]))
    || (t != [] && t[0] == '-' && Grouped(t[1..]) && code == -ValueOf(t[1..]))
  }

  /** `int()` reads the text as the code: blanks around it do not hinder it. */
  ghost predicate IntText(s: string, code: int) {
    exists t :: BlanksOff(s, t) && SignedText(t, code)
  }

  lemma SignedReads(s: string, code: int)
    ensures ReadInt(s) == Some(code) <==> SignedText(Strip(s), code)
  {
    var t := Strip(s);
    if t != [] && (t[0] == '-' || t[0] == '+') {
      assert !Grouped(t);
      ReadDigitsExactly(t[1..]);
    } else {
      ReadDigitsExactly(t);
    }
  }

  lemma ReadIntExactly(s: string, code: int)
    ensures ReadInt(s) == Some(code) <==> IntText(s, code)
  {
    SignedReads(s, code);
    StripExactly(s, Strip(s));
    if IntText(s, code) {
      var u :| BlanksOff(s, u) && SignedText(u, code);
      StripExactly(s, u);
    }
  }

  // ---- what the client is told ----

  /** There is no message exactly when none of the three places offers one. */
  lemma NoMessageExactly(e: Envelope)
    ensures FailureMessage(e) == "" <==> SaysNothing(e.error) && OffersNothing(e.data) && OffersNothing(e.result)
  {
    var m := FailureMessage(e);
    if m != "" { MessageFoundExactly(e, m); }
    forall n: string | n != "" && m == "" ensures !Offers(e.data, n) && e.error != Text(n) { MessageFoundExactly(e, n); }
    forall n: string | n != "" && m == "" ensures !Offers(e.result, n) { MessageFoundExactly(e, n); }
    if Usable(e.error) { assert e.error == Text(e.error.s); }
  }

  /** A failure without a signalled status is a 500 with the message, or with the name of the
      flow if there is none. */
  lemma PlainFailureExactly(flowName: string, e: Envelope)
    requires e.status == "FAILED" && !("HTTP_" <= FailureMessage(e))
    ensures FailureMessage(e) == "" ==> RunFlowOrRaise(flowName, e) == HttpError(500, flowName + " failed")
    ensures FailureMessage(e) != "" ==> RunFlowOrRaise(flowName, e) == HttpError(500, FailureMessage(e))
  {}

  /** A message that begins with the prefix: what stands before the first colon, less every
      `HTTP_`, is the status if it reads as a number, and what follows the colon is the
      detail, or the whole message where there is no colon. Otherwise it is a 500 with the
      whole message. */
  lemma SignalledFailureExactly(flowName: string, e: Envelope, head: string, rest: Option<string>)
    requires e.status == "FAILED" && "HTTP_" <= FailureMessage(e) && ':' !in head
    requires FailureMessage(e) == match rest case None => head case Some(tail) => head + ":" + tail
    ensures forall code :: IntText(Remove(head, "HTTP_"), code) ==>
      RunFlowOrRaise(flowName, e) == HttpError(code, match rest case None => head case Some(tail) => tail)
    ensures (forall code :: !IntText(Remove(head, "HTTP_"), code)) ==>
      RunFlowOrRaise(flowName, e) == HttpError(500, FailureMessage(e))
  {
    var m := FailureMessage(e);
    match rest {
      case None => ColonNowhere(head);
      case Some(tail) => CutAtColon(head, tail);
    }
    var text := Remove(head, PREFIX);
    forall code ensures ReadInt(text) == Some(code) <==> IntText(text, code) { ReadIntExactly(text, code); }
  }

  lemma ColonNowhere(s: string)
    requires ':' !in s
    ensures IndexOf(s, ':') == |s| && s[..|s|] == s
  {
    var i := IndexOf(s, ':');
  }

  /** Exactly the failed envelopes raise; every other status returns the envelope as it is. */
  lemma RaisesExactly(flowName: string, e: Envelope)
    ensures RunFlowOrRaise(flowName, e).HttpError? <==> e.status == "FAILED"
    ensures e.status != "FAILED" ==> RunFlowOrRaise(flowName, e) == Returned(e)
  {}
}
