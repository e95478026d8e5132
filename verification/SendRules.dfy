/** When a capture leaves the page, in terms of the captures that left it before: their times,
    conversations, kinds and texts. */
module SendRules {
  import opened Wrappers
  import opened RollingHash
  import opened CaptureDedup

  // ---------- Printed numbers ----------

  lemma DigitIs(d: nat)
    requires d < 36
    ensures Digit(d) == if d < 10 then '0' + d as char else 'a' + (d - 10) as char
  {
  }

  lemma DigitIsInjective(d: nat, e: nat)
    requires d < 36 && e < 36 && Digit(d) == Digit(e)
    ensures d == e
  {
    hide Digit;
    DigitIs(d);
    DigitIs(e);
  }

  predicate IsDigits(s: string) {
    s != "" && forall i | 0 <= i < |s| :: s[i] != '-' && s[i] != '_'
  }

  lemma {:induction false} NatIsDigits(n: nat)
    ensures IsDigits(Base36Nat(n)) && (n >= 36 ==> |Base36Nat(n)| > 1)
  {
    hide Digit;
    DigitIs(n % 36);
    if n >= 36 {
      NatIsDigits(n / 36);
    }
  }

  lemma {:induction false} NatIsInjective(m: nat, n: nat)
    requires Base36Nat(m) == Base36Nat(n)
    ensures m == n
    decreases m
  {
    hide Digit;
    var a, b := Base36Nat(m), Base36Nat(n);
    NatIsDigits(m);
    NatIsDigits(n);
    assert a[|a| - 1] == Digit(m % 36) && b[|b| - 1] == Digit(n % 36);
    DigitIsInjective(m % 36, n % 36);
    if m >= 36 && n >= 36 {
      assert a[..|a| - 1] == Base36Nat(m / 36) && b[..|b| - 1] == Base36Nat(n / 36);
      NatIsInjective(m / 36, n / 36);
    }
  }

  // Different hashes print differently, and without an underscore.
  lemma Base36IsInjective(g: int, h: int)
    ensures Base36(g) == Base36(h) <==> g == h
    ensures '_' !in Base36(h)
  {
    hide Base36Nat;
    NatIsDigits(if h < 0 then -h else h);
    NatIsDigits(if g < 0 then -g else g);
    if Base36(g) == Base36(h) {
      assert g < 0 <==> Base36(g)[0] == '-';
      assert h < 0 <==> Base36(h)[0] == '-';
      if g < 0 {
        assert Base36(g)[1..] == Base36Nat(-g) && Base36(h)[1..] == Base36Nat(-h);
        NatIsInjective(-g, -h);
      } else {
        NatIsInjective(g, h);
      }
    }
  }

  // ---------- Keys ----------

  datatype Capture = Capture(now: int, conversationId: Option<string>, kind: string, text: seq<CodeUnit>)

  // A page without a conversation counts as the conversation `unknown`.
  function Shown(conversationId: Option<string>): string {
    match conversationId
    case None => "unknown"
    case Some("") => "unknown"
    case Some(id) => id
  }

  // The hash of what the text begins with.
  function BeginningHash(text: seq<CodeUnit>): int {
    Hash(if |text| <= 200 then text else text[..200])
  }

  predicate SameContent(a: Capture, b: Capture) {
    && Shown(a.conversationId) + "_" + a.kind == Shown(b.conversationId) + "_" + b.kind
    && BeginningHash(a.text) == BeginningHash(b.text)
  }

  function KeyOf(c: Capture): string {
    DedupKey(c.conversationId, c.kind, c.text)
  }

  lemma LastUnderscore(a: string, x: string, b: string, y: string)
    requires '_' !in x && '_' !in y
    ensures a + "_" + x == b + "_" + y <==> a == b && x == y
  {
    if a + "_" + x == b + "_" + y {
      var s := a + "_" + x;
      assert s[|a|] == '_' && s[|b|] == '_';
      assert forall i | |a| < i < |s| :: s[i] == x[i - |a| - 1];
      assert forall i | |b| < i < |s| :: s[i] == y[i - |b| - 1];
      assert |a| == |b|;
      assert s[..|a|] == a && s[..|b|] == b;
      assert s[|a| + 1..] == x && s[|b| + 1..] == y;
    }
  }

  // Two captures have the same key exactly when they have the same content.
  lemma SameKeyIff(a: Capture, b: Capture)
    ensures KeyOf(a) == KeyOf(b) <==> SameContent(a, b)
  {
    hide Base36, Hash;
    Base36IsInjective(BeginningHash(a.text), BeginningHash(b.text));
    Base36IsInjective(BeginningHash(b.text), BeginningHash(a.text));
    KeyIs(a);
    KeyIs(b);
    LastUnderscore(Shown(a.conversationId) + "_" + a.kind, Base36(BeginningHash(a.text)),
                   Shown(b.conversationId) + "_" + b.kind, Base36(BeginningHash(b.text)));
  }

  lemma KeyIs(c: Capture)
    ensures KeyOf(c) == Shown(c.conversationId) + "_" + c.kind + "_" + Base36(BeginningHash(c.text))
  {
    hide Base36, Hash;
  }

  // Within one kind the conversations are told apart.
  lemma ConversationsAreToldApart(a: Capture, b: Capture)
    requires a.kind == b.kind
    ensures KeyOf(a) == KeyOf(b) <==>
              Shown(a.conversationId) == Shown(b.conversationId) && BeginningHash(a.text) == BeginningHash(b.text)
  {
    hide KeyOf, BeginningHash;
    SameKeyIff(a, b);
    var s, t := Shown(a.conversationId) + "_" + a.kind, Shown(b.conversationId) + "_" + b.kind;
    if s == t {
      assert s[..|s| - |a.kind| - 1] == Shown(a.conversationId) && t[..|t| - |b.kind| - 1] == Shown(b.conversationId);
    }
  }

  // ---------- Whole sessions ----------

  // The gate's cache and the captures it has let through.
  function Gate(captures: seq<Capture>): (Cache, seq<Capture>) {
    if captures == [] then (Cache(0, map[]), [])
    else
      var n := |captures| - 1;
      var (c, sent) := Gate(captures[..n]);
      var x := captures[n];
      if |x.text| >= MIN_TEXT_LENGTH && Sends(c, x.now, KeyOf(x)) then (AfterSend(c, x.now, KeyOf(x)), sent + [x])
      else (c, sent)
  }

  function History(sent: seq<Capture>): seq<Sent> {
    seq(|sent|, i requires 0 <= i < |sent| => Sent(sent[i].now, KeyOf(sent[i])))
  }

  lemma {:induction false} GateMirrors(captures: seq<Capture>)
    ensures var (c, sent) := Gate(captures);
            Mirrors(c, History(sent)) && Spaced(History(sent)) && DayApart(History(sent))
    decreases |captures|
  {
    hide Mirrors, Spaced, DayApart, Sends, AfterSend, KeyOf;
    if captures == [] {
      NothingSent();
    } else {
      var n := |captures| - 1;
      var (c, sent) := Gate(captures[..n]);
      var x := captures[n];
      GateMirrors(captures[..n]);
      if |x.text| >= MIN_TEXT_LENGTH && Sends(c, x.now, KeyOf(x)) {
        SendKeepsMirror(c, History(sent), x.now, KeyOf(x));
        assert History(sent + [x]) == History(sent) + [Sent(x.now, KeyOf(x))];
      }
    }
  }

  lemma NothingSent()
    ensures Mirrors(Cache(0, map[]), History([])) && Spaced(History([])) && DayApart(History([]))
  {
  }

  // The rule in terms of the captures sent before.
  predicate MayLeave(sent: seq<Capture>, x: Capture) {
    && |x.text| >= 10 && x.now >= 2000
    && (forall e | e in sent :: x.now >= e.now + 2000)
    && (forall e | e in sent && SameContent(e, x) :: x.now >= e.now + 86400000)
  }

  lemma AllowedIff(sent: seq<Capture>, x: Capture)
    requires Spaced(History(sent))
    ensures Allowed(History(sent), x.now, KeyOf(x)) && |x.text| >= 10 <==> MayLeave(sent, x)
  {
    hide KeyOf, SameContent, Spaced, Latest, LastTime;
    LastSendIff(sent, x);
    SameContentIff(sent, x);
  }

  lemma LastSendIff(sent: seq<Capture>, x: Capture)
    requires Spaced(History(sent))
    ensures x.now >= LastTime(History(sent)) + 2000 <==>
              x.now >= 2000 && forall e | e in sent :: x.now >= e.now + 2000
  {
    hide KeyOf;
    var history := History(sent);
    LastIsLatest(history);
    assert forall i | 0 <= i < |sent| :: sent[i] in sent && history[i].time == sent[i].now;
  }

  lemma SameContentIff(sent: seq<Capture>, x: Capture)
    requires Spaced(History(sent))
    ensures Latest(History(sent), KeyOf(x)).None? || x.now >= Latest(History(sent), KeyOf(x)).value + 86400000 <==>
              forall e | e in sent && SameContent(e, x) :: x.now >= e.now + 86400000
  {
    hide KeyOf, SameContent, Spaced;
    var history, key := History(sent), KeyOf(x);
    LatestIsIn(history, key);
    forall e | e in sent && SameContent(e, x)
      ensures Latest(history, key).Some? && e.now <= Latest(history, key).value
    {
      var i :| 0 <= i < |sent| && sent[i] == e;
      SameKeyIff(e, x);
      assert history[i] == Sent(e.now, key);
    }
    if Latest(history, key).Some? {
      var i :| 0 <= i < |history| && history[i] == Sent(Latest(history, key).value, key);
      SameKeyIff(sent[i], x);
      assert sent[i] in sent;
    }
  }

  lemma LastIsLatest(history: seq<Sent>)
    requires Spaced(history)
    ensures forall i | 0 <= i < |history| :: history[i].time <= LastTime(history)
    ensures LastTime(history) == 0 || exists i :: 0 <= i < |history| && history[i].time == LastTime(history)
  {
    if history != [] {
      assert history[|history| - 1].time == LastTime(history);
    }
  }

  // Main result: after any captures, with any clock readings, the next one leaves the page exactly
  // when its text has 10 characters, nothing left in the last 2 s, and nothing of the same
  // conversation and kind whose beginning has the same hash left in the last 24 hours.
  lemma LeavesIff(captures: seq<Capture>, x: Capture)
    ensures var sent := Gate(captures).1;
            Gate(captures + [x]).1 == if MayLeave(sent, x) then sent + [x] else sent
  {
    hide KeyOf, Sends, AfterSend, Mirrors, Spaced, DayApart, MayLeave;
    assert (captures + [x])[..|captures|] == captures;
    var (c, sent) := Gate(captures);
    GateMirrors(captures);
    DecisionsAgree(c, History(sent), x.now, KeyOf(x));
    AllowedIff(sent, x);
  }
}
