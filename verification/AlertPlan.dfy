/** app/alert_engine/dedup.py: the change signature of an event, and the decision whether its
    alert thread gets another message. */
module AlertPlan {
  import opened Wrappers
  import opened Text

  datatype Priority = P1 | P2 | P3 | P4

  datatype EventStatus = Active | Updated | Resolved | Closed

  datatype MessageKind = Initial | Update | Severity | ResolvedNote

  datatype Stats = Stats(articles: nat, independent: nat)

  // ----- Numbers as text -----

  function DigitText(d: nat): char
    requires d < 10
  {
    "0123456789"[d]
  }

  function DigitValue(c: char): Option<nat> {
    if '0' <= c <= '9' then Some((c - '0') as nat) else None
  }

  /** `str(n)`. */
  function NatText(n: nat): (text: string)
    ensures text != ""
  {
    if n < 10 then [DigitText(n)] else NatText(n / 10) + [DigitText(n % 10)]
  }

  /** `int(text)` for plain decimal digits; `None` is the `ValueError`. */
  function ParseNat(text: string): Option<nat> {
    if text == "" then None
    else
      var last := DigitValue(text[|text| - 1]);
      if last.None? then None
      else if |text| == 1 then last
      else
        var front := ParseNat(text[..|text| - 1]);
        if front.None? then None else Some(10 * front.value + last.value)
  }

  lemma DigitRoundTrip(d: nat)
    requires d < 10
    ensures DigitValue(DigitText(d)) == Some(d)
  {
    var digits := "0123456789";
    assert digits[0] == '0' && digits[1] == '1' && digits[2] == '2' && digits[3] == '3' && digits[4] == '4';
    assert digits[5] == '5' && digits[6] == '6' && digits[7] == '7' && digits[8] == '8' && digits[9] == '9';
  }

  lemma {:induction false} NatRoundTrip(n: nat)
    ensures ParseNat(NatText(n)) == Some(n)
  {
    if n < 10 {
      DigitRoundTrip(n);
    } else {
      NatRoundTrip(n / 10);
      DigitRoundTrip(n % 10);
      var text := NatText(n);
      assert text[..|text| - 1] == NatText(n / 10);
    }
  }

  lemma {:induction false} NatTextIsDigits(n: nat)
    ensures '|' !in NatText(n)
  {
    if n < 10 {
      DigitRoundTrip(n);
    } else {
      NatTextIsDigits(n / 10);
      DigitRoundTrip(n % 10);
    }
  }

  // ----- The signature -----

  function PriorityText(p: Priority): string {
    match p
    case P1 => "P1"
    case P2 => "P2"
    case P3 => "P3"
    case P4 => "P4"
  }

  function StatusText(s: EventStatus): string {
    match s
    case Active => "active"
    case Updated => "updated"
    case Resolved => "resolved"
    case Closed => "closed"
  }

  /** `_signature`. */
  function Signature(p: Priority, s: EventStatus, st: Stats): string {
    PriorityText(p) + "|" + StatusText(s) + "|" + NatText(st.articles) + "|" + NatText(st.independent)
  }

  /** `_parse_counts`; a missing or unreadable part counts as zero. */
  function ParseCounts(signature: Option<string>): Stats {
    if signature.None? || signature.value == "" then Stats(0, 0)
    else
      var parts := SplitAt(signature.value, '|');
      Stats(CountAt(parts, 2), CountAt(parts, 3))
  }

  function CountAt(parts: seq<string>, i: nat): nat {
    if i >= |parts| then 0
    else match ParseNat(parts[i]) case Some(n) => n case None => 0
  }

  lemma PlainTexts(p: Priority, s: EventStatus)
    ensures '|' !in PriorityText(p) && '|' !in StatusText(s)
  {
  }

  lemma FourParts(a: string, b: string, c: string, d: string)
    requires '|' !in a && '|' !in b && '|' !in c && '|' !in d
    ensures SplitAt(a + "|" + b + "|" + c + "|" + d, '|') == [a, b, c, d]
  {
    var tail2 := c + "|" + d;
    var tail3 := b + "|" + tail2;
    SplitOne(d, '|');
    SplitFirst(c, '|', d);
    SplitFirst(b, '|', tail2);
    SplitFirst(a, '|', tail3);
    assert a + "|" + b + "|" + c + "|" + d == a + "|" + tail3;
    assert SplitAt(tail2, '|') == [c, d];
    assert SplitAt(tail3, '|') == [b, c, d];
  }

  /** Splitting a signature gives back its four parts. */
  lemma SignatureParts(p: Priority, s: EventStatus, st: Stats)
    ensures SplitAt(Signature(p, s, st), '|')
         == [PriorityText(p), StatusText(s), NatText(st.articles), NatText(st.independent)]
  {
    PlainTexts(p, s);
    NatTextIsDigits(st.articles);
    NatTextIsDigits(st.independent);
    FourParts(PriorityText(p), StatusText(s), NatText(st.articles), NatText(st.independent));
  }

  /** Parsing a printed signature gives back its counts. */
  lemma CountsRoundTrip(p: Priority, s: EventStatus, st: Stats)
    ensures ParseCounts(Some(Signature(p, s, st))) == st
  {
    SignatureParts(p, s, st);
    NatRoundTrip(st.articles);
    NatRoundTrip(st.independent);
  }

  /** Two signatures are equal only if everything they print is equal, so comparing signatures
      decides exactly whether something changed. */
  lemma SignatureInjective(p: Priority, s: EventStatus, st: Stats, p': Priority, s': EventStatus, st': Stats)
    ensures Signature(p, s, st) == Signature(p', s', st') <==> p == p' && s == s' && st == st'
  {
    if Signature(p, s, st) == Signature(p', s', st') {
      SignatureParts(p, s, st);
      SignatureParts(p', s', st');
      CountsRoundTrip(p, s, st);
      CountsRoundTrip(p', s', st');
      var parts := SplitAt(Signature(p, s, st), '|');
      assert parts[0] == PriorityText(p) == PriorityText(p');
      assert parts[1] == StatusText(s) == StatusText(s');
      TextsDiffer(p, p', s, s');
    }
  }

  lemma TextsDiffer(p: Priority, p': Priority, s: EventStatus, s': EventStatus)
    ensures PriorityText(p) == PriorityText(p') ==> p == p'
    ensures StatusText(s) == StatusText(s') ==> s == s'
  {
    assert PriorityText(p)[1] == PriorityText(p')[1] ==> p == p';
    assert StatusText(s)[0] == StatusText(s')[0] ==> s == s';
  }

  // ----- The plan -----

  datatype Settings = Settings(minNewSources: int, minNewArticles: int, cooldown: int)

  /** One row of the alerts table, without its texts. */
  datatype Alert = Alert(priority: Priority, status: EventStatus, messageCount: nat,
                         lastSignature: Option<string>, lastSentAt: Option<int>)

  datatype Action = Action(kind: MessageKind, signature: string)

  predicate Terminal(s: EventStatus) {
    s == Resolved || s == Closed
  }

  /** `plan_alert`. */
  function PlanAlert(cfg: Settings, status: EventStatus, alert: Option<Alert>, st: Stats, p: Priority, now: int)
    : Option<Action>
  {
    var signature := Signature(p, status, st);
    match alert
    case None => if Terminal(status) then None else Some(Action(Initial, signature))
    case Some(a) =>
      if a.lastSignature == Some(signature) then None
      else if Terminal(status) then
        if a.status == status then None else Some(Action(ResolvedNote, signature))
      else if p != a.priority then Some(Action(Severity, signature))
      else
        var last := ParseCounts(a.lastSignature);
        if st.independent - last.independent >= cfg.minNewSources || st.articles - last.articles >= cfg.minNewArticles then
          if a.lastSentAt.Some? && now - a.lastSentAt.value < cfg.cooldown then None
          else Some(Action(Update, signature))
        else None
  }

  /** `_message_priority`. */
  function MessagePriority(a: Alert, kind: MessageKind, p: Priority): Priority {
    if kind == ResolvedNote then P4
    else if kind == Severity then p
    else if a.messageCount > 0 && kind == Update then a.priority
    else p
  }

  /** What a signature and its numbers look like. */
  lemma SignatureLooks()
    ensures Signature(P1, Active, Stats(12, 3)) == "P1|active|12|3"
    ensures Signature(P2, Updated, Stats(0, 0)) == "P2|updated|0|0"
    ensures Signature(P3, Resolved, Stats(4, 5)) == "P3|resolved|4|5"
    ensures Signature(P4, Closed, Stats(67, 89)) == "P4|closed|67|89"
  {
    assert NatText(12) == NatText(1) + "2" && NatText(67) == NatText(6) + "7" && NatText(89) == NatText(8) + "9";
  }

  /** The decision of `plan_alert` on any stored row, in full. */
  lemma PlanMeaning(cfg: Settings, status: EventStatus, alert: Option<Alert>, st: Stats, p: Priority, now: int)
    ensures var next, signature := PlanAlert(cfg, status, alert, st, p, now), Signature(p, status, st);
            var ongoing := status == Active || status == Updated;
            match alert
            case None => next == if ongoing then Some(Action(Initial, signature)) else None
            case Some(a) =>
              var other, last := a.lastSignature != Some(signature), ParseCounts(a.lastSignature);
              && (next.Some? ==> next.value.signature == signature && next.value.kind != Initial)
              && (next == Some(Action(ResolvedNote, signature)) <==> other && !ongoing && a.status != status)
              && (next == Some(Action(Severity, signature)) <==> other && ongoing && p != a.priority)
              && (next == Some(Action(Update, signature)) <==>
                    && other && ongoing && p == a.priority
                    && (st.independent >= last.independent + cfg.minNewSources || st.articles >= last.articles + cfg.minNewArticles)
                    && (a.lastSentAt.Some? ==> now >= a.lastSentAt.value + cfg.cooldown))
  {
  }

  /** Only a text of decimal digits is read as a number. */
  lemma {:induction false} ParseNatIff(text: string)
    ensures ParseNat(text).Some? <==> text != "" && forall i :: 0 <= i < |text| ==> '0' <= text[i] <= '9'
  {
    if |text| > 1 {
      ParseNatIff(text[..|text| - 1]);
    }
  }

  /** Reading any stored signature: the third and fourth part, each zero if it is missing or no number. */
  lemma ParseMeaning(parts: seq<string>)
    requires parts != [] && forall i :: 0 <= i < |parts| ==> '|' !in parts[i]
    ensures var read := ParseCounts(Some(JoinWith(parts, '|')));
            && (|parts| > 2 && ParseNat(parts[2]).Some? ==> Some(read.articles) == ParseNat(parts[2]))
            && (|parts| <= 2 || ParseNat(parts[2]).None? ==> read.articles == 0)
            && (|parts| > 3 && ParseNat(parts[3]).Some? ==> Some(read.independent) == ParseNat(parts[3]))
            && (|parts| <= 3 || ParseNat(parts[3]).None? ==> read.independent == 0)
    ensures ParseCounts(None) == Stats(0, 0)
  {
    SplitJoined(parts, '|');
  }
}
