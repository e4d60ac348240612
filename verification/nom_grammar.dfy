/** The nom backend (nom.rs): the same nine responses, read with nom's
    `tag`, `take_until`, `is_not`, `one_of`, `many0`/`many1` and `opt`, then
    `all_consuming`. Its primitives are related to chumsky's `taken_ignore`,
    which is how the two backends are compared. */
module NomGrammar {
  import opened Wire
  import opened Enums
  import opened Messages
  import LibGrammar

  // ---------------------------------------------------------------------
  // Primitives

  /** Length of the longest prefix of `s` free of `stop`. */
  function Span(s: string, stop: set<char>): (n: nat)
    ensures n <= |s| && Avoids(s[..n], stop) && (n < |s| ==> s[n] in stop)
  {
    if s == [] || s[0] in stop then 0
    else
      var n := 1 + Span(s[1..], stop);
      assert s[..n] == [s[0]] + s[1..][..n - 1];
      n
  }

  /** `is_not(stop)` on complete input: the longest non-empty prefix free of
      `stop`; it fails when that prefix is empty. */
  function IsNot(s: string, stop: set<char>): (r: Step<string>)
    ensures !r.Panic?
    ensures r.Fail? <==> s == [] || s[0] in stop
    ensures r.Done? ==> r.value != [] && Avoids(r.value, stop)
  {
    var n := Span(s, stop);
    if n == 0 then Fail else Done(s[..n], s[n..])
  }

  /** `take_until(c)` on complete input: everything before the first `c`,
      which is not consumed; it fails when `c` does not occur. */
  function TakeUntil(s: string, c: char): (r: Step<string>)
    ensures !r.Panic?
    ensures r.Done? ==> Avoids(r.value, {c}) && r.rest != [] && r.rest[0] == c
  {
    var n := Span(s, {c});
    if n == |s| then Fail else Done(s[..n], s[n..])
  }

  /** `take_until(c)` fails exactly when `c` does not occur. */
  lemma TakeUntilFails(s: string, c: char)
    ensures TakeUntil(s, c).Fail? <==> Avoids(s, {c})
  {
  }

  /** `take_until(c)` followed by `tag(c)`. */
  function UntilTag(s: string, c: char): (r: Step<string>)
    ensures !r.Panic?
    ensures r.Done? ==> Avoids(r.value, {c})
  {
    var (v, r0) :- TakeUntil(s, c);
    var (_, r1) :- Literal(r0, [c]);
    Done(v, r1)
  }

  /** `terminated(is_not(stop), one_of(stop))`. */
  function Terminated(s: string, stop: set<char>): (r: Step<string>)
    ensures !r.Panic?
    ensures r.Done? ==> r.value != [] && Avoids(r.value, stop)
  {
    var (v, r0) :- IsNot(s, stop);
    var (_, r1) :- OneOf(r0, stop);
    Done(v, r1)
  }

  /** `word`: a non-empty run free of tab and newline, ended by either. */
  function Word(s: string): (r: Step<string>)
    ensures !r.Panic?
    ensures r.Done? ==> IsWord(r.value) && |r.rest| < |s|
  {
    TerminatedIsTakenIgnore(s, WS);
    Terminated(s, WS)
  }

  /** A non-empty field free of tab and newline: what `word` can return. */
  predicate IsWord(t: string) {
    t != [] && Avoids(t, WS)
  }

  // ---------------------------------------------------------------------
  // The primitives against chumsky's taken_ignore

  /** `taken_ignore` splits at the same place as `Span`. */
  lemma {:induction false} SpanTakenIgnore(s: string, stop: set<char>)
    ensures LibGrammar.TakenIgnore(s, stop)
            == (var n := Span(s, stop); if n == |s| then Fail else Done(s[..n], s[n + 1..]))
  {
    if s != [] && s[0] !in stop {
      SpanTakenIgnore(s[1..], stop);
      var n := Span(s, stop);
      assert s[..n] == [s[0]] + s[1..][..n - 1];
      if n < |s| {
        assert s[n + 1..] == s[1..][n..];
      }
    }
  }

  /** `take_until(c)` then `tag(c)` is exactly `taken_ignore(just(c))`. */
  lemma UntilTagIsTakenIgnore(s: string, c: char)
    ensures UntilTag(s, c) == LibGrammar.TakenIgnore(s, {c})
  {
    SpanTakenIgnore(s, {c});
    var n := Span(s, {c});
    if n < |s| {
      assert s[n..][..1] == [c];
      assert s[n..][1..] == s[n + 1..];
    }
  }

  /** `terminated(is_not(x), one_of(x))` is `taken_ignore(one_of(x))` except
      that it refuses an empty field. */
  lemma TerminatedIsTakenIgnore(s: string, stop: set<char>)
    ensures Terminated(s, stop)
            == (var t := LibGrammar.TakenIgnore(s, stop); if t.Done? && t.value == [] then Fail else t)
  {
    SpanTakenIgnore(s, stop);
    var n := Span(s, stop);
    if 0 < n < |s| {
      assert s[n..][1..] == s[n + 1..];
    }
  }

  lemma UntilTagOn(tok: string, c: char, rest: string)
    requires Avoids(tok, {c})
    ensures UntilTag(Field(tok, c, rest), c) == Done(tok, rest)
  {
    UntilTagIsTakenIgnore(Field(tok, c, rest), c);
    LibGrammar.TakenIgnoreOn(tok, c, rest, {c});
  }

  lemma TerminatedOn(tok: string, c: char, rest: string, stop: set<char>)
    requires tok != [] && Avoids(tok, stop) && c in stop
    ensures Terminated(Field(tok, c, rest), stop) == Done(tok, rest)
  {
    TerminatedIsTakenIgnore(Field(tok, c, rest), stop);
    LibGrammar.TakenIgnoreOn(tok, c, rest, stop);
  }

  lemma WordOn(tok: string, c: char, rest: string)
    requires IsWord(tok) && c in WS
    ensures Word(Field(tok, c, rest)) == Done(tok, rest)
  {
    TerminatedOn(tok, c, rest, WS);
  }

  /** `terminated(number, tag(c))` */
  function NumberTag(s: string, c: char): Step<U64> {
    var (n, r0) :- Number(s);
    var (_, r1) :- Literal(r0, [c]);
    Done(n, r1)
  }

  /** `tag(c)` after a number behaves as `just(c)` does in chumsky. */
  lemma NumberTagIsNumberThen(s: string, c: char)
    ensures NumberTag(s, c) == LibGrammar.NumberThen(s, {c})
  {
    var st := Number(s);
    if st.Done? && |st.rest| > 0 {
      assert st.rest[..1] == [st.rest[0]];
    }
  }

  /** `delimited(tag(t), number, tag(c))` */
  function TagNumberTag(s: string, t: string, c: char): Step<U64> {
    var (_, r0) :- Literal(s, t);
    NumberTag(r0, c)
  }

  /** `delimited(tag(t), take_until(c), tag(c))` */
  function TagUntilTag(s: string, t: string, c: char): (r: Step<string>)
    ensures !r.Panic?
    ensures r.Done? ==> Avoids(r.value, {c})
  {
    var (_, r0) :- Literal(s, t);
    UntilTag(r0, c)
  }

  lemma TagNumberTagIsTaggedNumber(s: string, t: string, c: char)
    ensures TagNumberTag(s, t, c) == LibGrammar.TaggedNumber(s, t, {c})
  {
    var st := Literal(s, t);
    if st.Done? {
      NumberTagIsNumberThen(st.rest, c);
    }
  }

  lemma TagUntilTagIsTagged(s: string, t: string, c: char)
    ensures TagUntilTag(s, t, c) == LibGrammar.Tagged(s, t, {c})
  {
    var st := Literal(s, t);
    if st.Done? {
      UntilTagIsTakenIgnore(st.rest, c);
    }
  }

  // ---------------------------------------------------------------------
  // Repetitions

  /** `pair(word, word)` (M and C). */
  function WordPair(s: string): (r: Step<(string, string)>)
    ensures !r.Panic?
    ensures r.Done? ==> IsWord(r.value.0) && IsWord(r.value.1) && |r.rest| + 2 <= |s|
  {
    var (a, r0) :- Word(s);
    var (b, r1) :- Word(r0);
    Done((a, b), r1)
  }

  predicate AllWords(ps: seq<(string, string)>) {
    forall i :: 0 <= i < |ps| ==> IsWord(ps[i].0) && IsWord(ps[i].1)
  }

  /** `many0(pair(word, word))`: greedy, stops at the first position where no
      further pair matches. */
  function WordPairs(s: string): (r: (seq<(string, string)>, string))
    ensures AllWords(r.0)
    ensures !WordPair(r.1).Done?
    ensures |r.1| <= |s| && (r.0 == [] <==> r.1 == s)
    decreases |s|
  {
    match WordPair(s)
    case Done(p, rest) =>
      var (ps, rest') := WordPairs(rest);
      ([p] + ps, rest')
    case _ => ([], s)
  }

  lemma WordPairOn(a: string, b: string, c: char, rest: string)
    requires IsWord(a) && IsWord(b) && c in WS
    ensures WordPair(Field(a, TAB, Field(b, c, rest))) == Done((a, b), rest)
  {
    WordOn(a, TAB, Field(b, c, rest));
    WordOn(b, c, rest);
  }

  lemma {:induction false} WordPairsOn(ps: seq<(string, string)>, rest: string)
    requires AllWords(ps) && !WordPair(rest).Done?
    ensures WordPairs(RenderPairs(ps, TAB, rest)) == (ps, rest)
  {
    if ps != [] {
      var c := if |ps| == 1 then NL else TAB;
      WordPairOn(ps[0].0, ps[0].1, c, RenderPairs(ps[1..], TAB, rest));
      WordPairsOn(ps[1..], rest);
      assert [ps[0]] + ps[1..] == ps;
    }
  }

  /** One G datum: `separated_pair(take_until("="), tag("="), is_not("\t\n"))`
      then `one_of("\t\n")`. The key may be empty, the value may not. */
  function DataItem(s: string): (r: Step<(string, string)>)
    ensures !r.Panic?
    ensures r.Done? ==> Avoids(r.value.0, {EQ}) && IsWord(r.value.1) && |r.rest| + 2 <= |s|
  {
    UntilTagIsTakenIgnore(s, EQ);
    var (k, r0) :- UntilTag(s, EQ);
    TerminatedIsTakenIgnore(r0, WS);
    var (v, r1) :- Terminated(r0, WS);
    Done((k, v), r1)
  }

  predicate DataAvoid(ps: seq<(string, string)>) {
    forall i :: 0 <= i < |ps| ==> Avoids(ps[i].0, {EQ}) && IsWord(ps[i].1)
  }

  /** `many1(..)` of `DataItem` before the at-least-one check. */
  function DataItems(s: string): (r: (seq<(string, string)>, string))
    ensures DataAvoid(r.0)
    ensures !DataItem(r.1).Done?
    ensures |r.1| <= |s| && (r.0 == [] <==> r.1 == s)
    decreases |s|
  {
    match DataItem(s)
    case Done(p, rest) =>
      var (ps, rest') := DataItems(rest);
      ([p] + ps, rest')
    case _ => ([], s)
  }

  lemma DataItemOn(k: string, v: string, c: char, rest: string)
    requires Avoids(k, {EQ}) && IsWord(v) && c in WS
    ensures DataItem(Field(k, EQ, Field(v, c, rest))) == Done((k, v), rest)
  {
    UntilTagOn(k, EQ, Field(v, c, rest));
    TerminatedOn(v, c, rest, WS);
  }

  lemma {:induction false} DataItemsOn(ps: seq<(string, string)>, rest: string)
    requires DataAvoid(ps) && !DataItem(rest).Done?
    ensures DataItems(RenderPairs(ps, EQ, rest)) == (ps, rest)
  {
    if ps != [] {
      var c := if |ps| == 1 then NL else TAB;
      DataItemOn(ps[0].0, ps[0].1, c, RenderPairs(ps[1..], EQ, rest));
      DataItemsOn(ps[1..], rest);
      assert [ps[0]] + ps[1..] == ps;
    }
  }

  // ---------------------------------------------------------------------
  // The nine grammars, as in each `parse_raw`

  function KRaw(s: string): Step<K> {
    var (key, r) :- Word(s);
    Done(K(key), r)
  }

  function ARaw(s: string): (r: Step<A>)
    ensures r.Done? ==> IsWord(r.value.account) && IsWord(r.value.key) && IsWord(r.value.name)
  {
    var (_, r0) :- Literal(s, "A\t");
    var (account, r1) :- Word(r0);
    var (_, r2) :- Literal(r1, "KEY\t");
    var (key, r3) :- Word(r2);
    var (name, r4) :- Word(r3);
    Done(A(account, key, name), r4)
  }

  function MRaw(s: string): Step<M> {
    var (_, r0) :- Literal(s, "M\t");
    var (ps, r1) := WordPairs(r0);
    if ps == [] then Fail else Done(M(ps), r1)
  }

  function NRaw(s: string): Step<N> {
    var (_, r0) :- Literal(s, "N\t");
    var (env, r1) :- UntilTag(r0, BAR);
    var (proto, r2) :- Terminated(r1, BAR_NL);
    var (access, r3) := OptUntilTag(r2, NL);
    Done(N(EnvironmentFrom(env), ProtocolFrom(proto), AccessFrom(access)), r3)
  }

  /** `opt(terminated(take_until(c), tag(c)))` */
  function OptUntilTag(s: string, c: char): (r: (Option<string>, string))
    ensures r.0.None? <==> Avoids(s, {c})
    ensures r.0.None? ==> r.1 == s
  {
    UntilTagIsTakenIgnore(s, c);
    match UntilTag(s, c)
    case Done(a, rest) => (Some(a), rest)
    case _ => (Option.None, s)
  }

  function FRaw(s: string): Step<F> {
    var (status, r) :- TagUntilTag(s, "F\t", NL);
    Done(F(PaymentStatusFrom(status)), r)
  }

  function GRaw(s: string): Step<G> {
    var (_, r0) :- Literal(s, "G\t");
    var (name, r1) :- Word(r0);
    var (model, r2) :- Word(r1);
    var (_, r3) :- Literal(r2, "0\t\t");
    var (data, r4) := DataItems(r3);
    if data == [] then Fail else Done(G(name, PaymentStatusFrom(model), data), r4)
  }

  function PRaw(s: string): (r: Step<P>)
    ensures r.Done? ==> IsWord(r.value.p0) && IsWord(r.value.p1) && IsWord(r.value.p2)
                        && IsWord(r.value.p3) && IsWord(r.value.p4) && IsWord(r.value.p5)
  {
    var (_, r0) :- Literal(s, "P\t");
    var (p0, r1) :- Word(r0);
    var (p1, r2) :- Word(r1);
    var (p2, r3) :- Word(r2);
    var (p3, r4) :- Word(r3);
    var (p4, r5) :- Word(r4);
    var (p5, r6) :- Word(r5);
    Done(P(p0, p1, p2, p3, p4, p5), r6)
  }

  /** The four counts of C, each ended by a tab except the last, which may
      also be ended by a newline. */
  function Counts(s: string): Step<(U64, U64, U64, U64)> {
    var (nc, r0) :- TagNumberTag(s, "C\t", TAB);
    var (ns, r1) :- NumberTag(r0, TAB);
    var (n0, r2) :- NumberTag(r1, TAB);
    var (n1, r3) :- LibGrammar.NumberThen(r2, WS);
    Done((nc, ns, n0, n1), r3)
  }

  function CRaw(s: string): (r: Step<C>)
    ensures r.Done? ==> AllWords(r.value.characters)
  {
    var (n, r0) :- Counts(s);
    var (characters, r1) := WordPairs(r0);
    Done(C(n.0, n.1, n.2, n.3, characters), r1)
  }

  function LRaw(s: string): Step<L> {
    var (upport, r0) :- TagNumberTag(s, "L\tOK\tUPPORT=", TAB);
    var (game, r1) :- TagUntilTag(r0, "GAME=", TAB);
    var (gameCode, r2) :- TagUntilTag(r1, "GAMECODE=", TAB);
    var (fullGameName, r3) :- TagUntilTag(r2, "FULLGAMENAME=", TAB);
    var (gameFile, r4) :- TagUntilTag(r3, "GAMEFILE=", TAB);
    var (gameHost, r5) :- TagUntilTag(r4, "GAMEHOST=", TAB);
    var (gamePort, r6) :- TagNumberTag(r5, "GAMEPORT=", TAB);
    var (key, r7) :- TagUntilTag(r6, "KEY=", NL);
    Done(L(upport, game, gameCode, fullGameName, gameFile, gameHost, gamePort, key), r7)
  }

  // ---------------------------------------------------------------------
  // Message::parse: all_consuming(parse_raw)

  function ParseK(s: string): (r: Outcome<K>)
    ensures !r.Panicked?
    ensures r.Ok? ==> IsWord(r.msg.key)
  {
    Finish(KRaw(s))
  }

  function ParseA(s: string): (r: Outcome<A>)
    ensures !r.Panicked?
    ensures r.Ok? ==> IsWord(r.msg.account) && IsWord(r.msg.key) && IsWord(r.msg.name)
  {
    Finish(ARaw(s))
  }

  function ParseM(s: string): (r: Outcome<M>)
    ensures !r.Panicked?
    ensures r.Ok? ==> |r.msg.instances| >= 1 && AllWords(r.msg.instances)
  {
    Finish(MRaw(s))
  }

  function ParseN(s: string): (r: Outcome<N>)
    ensures !r.Panicked?
    ensures r.Ok? ==> ProtocolText(r.msg.protocol) != []
  {
    Finish(NRaw(s))
  }

  function ParseF(s: string): (r: Outcome<F>)
    ensures !r.Panicked?
    ensures r.Ok? ==> Avoids(PaymentStatusText(r.msg.status), {NL})
  {
    Finish(FRaw(s))
  }

  function ParseG(s: string): (r: Outcome<G>)
    ensures !r.Panicked?
    ensures r.Ok? ==> |r.msg.data| >= 1 && DataAvoid(r.msg.data)
  {
    Finish(GRaw(s))
  }

  function ParseP(s: string): (r: Outcome<P>)
    ensures !r.Panicked?
    ensures r.Ok? ==> IsWord(r.msg.p0) && IsWord(r.msg.p1) && IsWord(r.msg.p2)
                      && IsWord(r.msg.p3) && IsWord(r.msg.p4) && IsWord(r.msg.p5)
  {
    Finish(PRaw(s))
  }

  function ParseC(s: string): (r: Outcome<C>)
    ensures r.Ok? ==> AllWords(r.msg.characters)
  {
    Finish(CRaw(s))
  }

  function ParseL(s: string): (r: Outcome<L>)
    ensures r.Ok? ==> Avoids(r.msg.game, {TAB}) && Avoids(r.msg.gameCode, {TAB})
                      && Avoids(r.msg.fullGameName, {TAB}) && Avoids(r.msg.gameFile, {TAB})
                      && Avoids(r.msg.gameHost, {TAB}) && Avoids(r.msg.key, {NL})
  {
    LRawSameAsLib(s);
    Finish(LRaw(s))
  }

  // ---------------------------------------------------------------------
  // Round trips: the canonical line of a message whose text fields are
  // words reads back as that message; text after it makes the parse fail

  lemma KRoundTrip(m: K, extra: string)
    requires IsWord(m.key)
    ensures ParseK(RenderK(m, extra)) == if extra == [] then Ok(m) else ParseError
  {
    WordOn(m.key, NL, extra);
  }

  lemma ARoundTrip(m: A, extra: string)
    requires IsWord(m.account) && IsWord(m.key) && IsWord(m.name)
    ensures ParseA(RenderA(m, extra)) == if extra == [] then Ok(m) else ParseError
  {
    var r3 := Field(m.name, NL, extra);
    var r2 := Field(m.key, TAB, r3);
    var r0 := Field(m.account, TAB, "KEY\t" + r2);
    LiteralOn("A\t", r0);
    WordOn(m.account, TAB, "KEY\t" + r2);
    LiteralOn("KEY\t", r2);
    WordOn(m.key, TAB, r3);
    WordOn(m.name, NL, extra);
  }

  lemma MRoundTrip(m: M, extra: string)
    requires |m.instances| >= 1 && AllWords(m.instances)
    requires !WordPair(extra).Done?
    ensures ParseM(RenderM(m, extra)) == if extra == [] then Ok(m) else ParseError
  {
    LiteralOn("M\t", RenderPairs(m.instances, TAB, extra));
    WordPairsOn(m.instances, extra);
  }

  /** The environment and protocol of an N line, whichever of `|` and the
      newline ends the protocol; the access is whatever line follows. */
  lemma NHeadOn(env: string, proto: string, c: char, rest: string)
    requires Avoids(env, {BAR}) && proto != [] && Avoids(proto, BAR_NL) && c in BAR_NL
    ensures NRaw("N\t" + Field(env, BAR, Field(proto, c, rest)))
            == Done(N(EnvironmentFrom(env), ProtocolFrom(proto), AccessFrom(OptUntilTag(rest, NL).0)),
                    OptUntilTag(rest, NL).1)
  {
    var r1 := Field(proto, c, rest);
    LiteralOn("N\t", Field(env, BAR, r1));
    UntilTagOn(env, BAR, r1);
    TerminatedOn(proto, c, rest, BAR_NL);
  }

  lemma NRoundTrip(m: N, extra: string)
    requires m.environment.Canonical() && Avoids(EnvironmentText(m.environment), {BAR})
    requires m.protocol.Canonical() && ProtocolText(m.protocol) != [] && Avoids(ProtocolText(m.protocol), BAR_NL)
    requires m.access.Canonical() && (m.access.Other? ==> Avoids(m.access.text, {NL}))
    requires m.access.None? ==> Avoids(extra, {NL})
    ensures ParseN(RenderN(m, extra)) == if extra == [] then Ok(m) else ParseError
  {
    EnvironmentRoundTrip(m.environment);
    ProtocolRoundTrip(m.protocol);
    AccessRoundTrip(m.access);
    var env := EnvironmentText(m.environment);
    var proto := ProtocolText(m.protocol);
    match m.access
    case None =>
      NHeadOn(env, proto, NL, extra);
    case Trial =>
      assert Avoids("TRIAL", {NL});
      NAccessOn(env, proto, "TRIAL", extra);
    case Other(t) =>
      NAccessOn(env, proto, t, extra);
  }

  /** An N line whose access segment is present. */
  lemma NAccessOn(env: string, proto: string, t: string, extra: string)
    requires Avoids(env, {BAR}) && proto != [] && Avoids(proto, BAR_NL) && Avoids(t, {NL})
    ensures NRaw("N\t" + Field(env, BAR, Field(proto, BAR, Field(t, NL, extra))))
            == Done(N(EnvironmentFrom(env), ProtocolFrom(proto), AccessFrom(Some(t))), extra)
  {
    NHeadOn(env, proto, BAR, Field(t, NL, extra));
    UntilTagOn(t, NL, extra);
    assert OptUntilTag(Field(t, NL, extra), NL) == (Some(t), extra);
  }

  lemma GRoundTrip(m: G, extra: string)
    requires IsWord(m.name) && IsWord(PaymentStatusText(m.model)) && m.model.Canonical()
    requires |m.data| >= 1 && DataAvoid(m.data)
    requires !DataItem(extra).Done?
    ensures ParseG(RenderG(m, extra)) == if extra == [] then Ok(m) else ParseError
  {
    var model := PaymentStatusText(m.model);
    var r3 := RenderPairs(m.data, EQ, extra);
    var r1 := Field(model, TAB, "0\t\t" + r3);
    LiteralOn("G\t", Field(m.name, TAB, r1));
    WordOn(m.name, TAB, r1);
    WordOn(model, TAB, "0\t\t" + r3);
    LiteralOn("0\t\t", r3);
    DataItemsOn(m.data, extra);
    PaymentStatusRoundTrip(m.model);
  }

  lemma PRoundTrip(m: P, extra: string)
    requires IsWord(m.p0) && IsWord(m.p1) && IsWord(m.p2)
    requires IsWord(m.p3) && IsWord(m.p4) && IsWord(m.p5)
    ensures ParseP(RenderP(m, extra)) == if extra == [] then Ok(m) else ParseError
  {
    var r5 := Field(m.p5, NL, extra);
    var r4 := Field(m.p4, TAB, r5);
    var r3 := Field(m.p3, TAB, r4);
    var r2 := Field(m.p2, TAB, r3);
    var r1 := Field(m.p1, TAB, r2);
    LiteralOn("P\t", Field(m.p0, TAB, r1));
    WordOn(m.p0, TAB, r1);
    WordOn(m.p1, TAB, r2);
    WordOn(m.p2, TAB, r3);
    WordOn(m.p3, TAB, r4);
    WordOn(m.p4, TAB, r5);
    WordOn(m.p5, NL, extra);
  }

  lemma CRoundTrip(m: C, extra: string)
    requires AllWords(m.characters)
    requires !WordPair(extra).Done?
    ensures ParseC(RenderC(m, extra)) == if extra == [] then Ok(m) else ParseError
  {
    var r4 := RenderPairs(m.characters, TAB, extra);
    var c := if m.characters == [] then NL else TAB;
    var r3 := Field(Decimal(m.n1), c, r4);
    var r2 := Field(Decimal(m.n0), TAB, r3);
    var r1 := Field(Decimal(m.maxCharacters), TAB, r2);
    var r0 := Field(Decimal(m.numCharacters), TAB, r1);
    TagNumberTagIsTaggedNumber("C\t" + r0, "C\t", TAB);
    LibGrammar.TaggedNumberOn("C\t", m.numCharacters, TAB, r1, {TAB});
    NumberTagIsNumberThen(r1, TAB);
    LibGrammar.NumberThenOn(m.maxCharacters, TAB, r2, {TAB});
    NumberTagIsNumberThen(r2, TAB);
    LibGrammar.NumberThenOn(m.n0, TAB, r3, {TAB});
    LibGrammar.NumberThenOn(m.n1, c, r4, WS);
    WordPairsOn(m.characters, extra);
  }

  // ---------------------------------------------------------------------
  // Exactness: the lines each nom grammar accepts are exactly these shapes,
  // each lemma paired with the one that reads every such line back

  /** What `word` consumed is the word and the one tab or newline after it. */
  lemma WordSplit(s: string)
    requires Word(s).Done?
    ensures var w := Word(s); s[|w.value|] in WS && s == Field(w.value, s[|w.value|], w.rest)
  {
    TerminatedIsTakenIgnore(s, WS);
    LibGrammar.TakenIgnoreSplit(s, WS);
  }

  /** `word` split into its word, its ending and what follows. */
  lemma WordParts(s: string) returns (v: string, c: char, rest: string)
    requires Word(s).Done?
    ensures IsWord(v) && c in WS && rest == Word(s).rest && s == Field(v, c, rest)
  {
    WordSplit(s);
    v, c, rest := Word(s).value, s[|Word(s).value|], Word(s).rest;
  }

  /** A K line is its word ended by a tab or a newline, and nothing more. */
  lemma KExact(s: string)
    requires ParseK(s).Ok?
    ensures s == Field(ParseK(s).msg.key, TAB, []) || s == Field(ParseK(s).msg.key, NL, [])
  {
    WordSplit(s);
  }

  lemma KAnyEnding(m: K, c: char)
    requires IsWord(m.key) && c in WS
    ensures ParseK(Field(m.key, c, [])) == Ok(m)
  {
    WordOn(m.key, c, []);
  }

  /** An A line whose three words are ended by `ends`. */
  function AEndedBy(m: A, ends: seq<char>): string
    requires |ends| == 3
  {
    "A\t" + Field(m.account, ends[0], "KEY\t" + Field(m.key, ends[1], Field(m.name, ends[2], [])))
  }

  /** An A line is "A\t", a word, "KEY\t" and two more words, each word
      ended by one tab or newline. */
  lemma AExact(s: string)
    requires ParseA(s).Ok?
    ensures exists ends :: |ends| == 3 && Ends(ends) && s == AEndedBy(ParseA(s).msg, ends)
  {
    ASteps(s);
    var r0 := Literal(s, "A\t").rest;
    assert s == "A\t" + r0 by { LiteralSplit(s, "A\t"); }
    var v0, c0, q0 := WordParts(r0);
    var r1 := Literal(q0, "KEY\t").rest;
    assert q0 == "KEY\t" + r1 by { LiteralSplit(q0, "KEY\t"); }
    var v1, c1, q1 := WordParts(r1);
    var v2, c2, q2 := WordParts(q1);
    ALine(r0, q0, r1, q1, v0, v1, v2, c0, c1, c2);
    AAnyEndings(A(v0, v1, v2), [c0, c1, c2]);
  }

  /** The three words `ARaw` reads all succeed when it does. */
  lemma ASteps(s: string)
    requires ARaw(s).Done?
    ensures Literal(s, "A\t").Done? && var w0 := Word(Literal(s, "A\t").rest);
            w0.Done? && Literal(w0.rest, "KEY\t").Done? && var w1 := Word(Literal(w0.rest, "KEY\t").rest);
            w1.Done? && var w2 := Word(w1.rest);
            w2.Done? && w2.rest == ARaw(s).rest
  {
  }

  /** Three ended words around "KEY\t" make the ended words of an A line. */
  lemma ALine(r0: string, q0: string, r1: string, q1: string, v0: string, v1: string, v2: string,
              c0: char, c1: char, c2: char)
    requires c0 in WS && c1 in WS && c2 in WS
    requires r0 == Field(v0, c0, q0) && q0 == "KEY\t" + r1
    requires r1 == Field(v1, c1, q1) && q1 == Field(v2, c2, [])
    ensures Ends([c0, c1, c2])
    ensures "A\t" + r0 == AEndedBy(A(v0, v1, v2), [c0, c1, c2])
  {
  }

  /** Each word of an A line may be ended by a tab or a newline. */
  lemma AAnyEndings(m: A, ends: seq<char>)
    requires IsWord(m.account) && IsWord(m.key) && IsWord(m.name)
    requires |ends| == 3 && Ends(ends)
    ensures ParseA(AEndedBy(m, ends)) == Ok(m)
  {
    var r3 := Field(m.name, ends[2], []);
    var r2 := Field(m.key, ends[1], r3);
    var r0 := Field(m.account, ends[0], "KEY\t" + r2);
    LiteralOn("A\t", r0);
    WordOn(m.account, ends[0], "KEY\t" + r2);
    LiteralOn("KEY\t", r2);
    WordOn(m.key, ends[1], r3);
    WordOn(m.name, ends[2], []);
  }

  /** A P line whose six words are ended by `ends`. */
  function PEndedBy(m: P, ends: seq<char>): string
    requires |ends| == 6
  {
    "P\t" + Field(m.p0, ends[0], Field(m.p1, ends[1], Field(m.p2, ends[2], Field(m.p3, ends[3],
             Field(m.p4, ends[4], Field(m.p5, ends[5], []))))))
  }

  /** Three words read in a row, with the tab or newline that ended each. */
  lemma ThreeWordsSplit(s: string) returns (v0: string, v1: string, v2: string, c0: char, c1: char, c2: char, rest: string)
    requires Word(s).Done? && Word(Word(s).rest).Done? && Word(Word(Word(s).rest).rest).Done?
    ensures IsWord(v0) && IsWord(v1) && IsWord(v2)
    ensures c0 in WS && c1 in WS && c2 in WS
    ensures rest == Word(Word(Word(s).rest).rest).rest
    ensures s == Field(v0, c0, Field(v1, c1, Field(v2, c2, rest)))
  {
    var w0 := Word(s);
    var w1 := Word(w0.rest);
    var w2 := Word(w1.rest);
    WordSplit(s);
    WordSplit(w0.rest);
    WordSplit(w1.rest);
    v0, v1, v2, rest := w0.value, w1.value, w2.value, w2.rest;
    c0, c1, c2 := s[|v0|], w0.rest[|v1|], w1.rest[|v2|];
  }

  /** A P line is "P\t" and then exactly six words, each ended by one tab or
      newline. */
  lemma PExact(s: string)
    requires ParseP(s).Ok?
    ensures exists ends :: |ends| == 6 && Ends(ends) && s == PEndedBy(ParseP(s).msg, ends)
  {
    PSteps(s);
    var r0 := Literal(s, "P\t").rest;
    assert s == "P\t" + r0 by { LiteralSplit(s, "P\t"); }
    var m, ends := PWords(r0);
    PAnyEndings(m, ends);
  }

  /** Six words read in a row are those words, each with its ending. */
  lemma PWords(r0: string) returns (m: P, ends: seq<char>)
    requires var w0 := Word(r0);
             w0.Done? && var w1 := Word(w0.rest);
             w1.Done? && var w2 := Word(w1.rest);
             w2.Done? && var w3 := Word(w2.rest);
             w3.Done? && var w4 := Word(w3.rest);
             w4.Done? && var w5 := Word(w4.rest);
             w5.Done? && w5.rest == []
    ensures IsWord(m.p0) && IsWord(m.p1) && IsWord(m.p2)
    ensures IsWord(m.p3) && IsWord(m.p4) && IsWord(m.p5)
    ensures |ends| == 6 && Ends(ends) && "P\t" + r0 == PEndedBy(m, ends)
  {
    var r3 := Word(Word(Word(r0).rest).rest).rest;
    var v3, v4, v5, c3, c4, c5, r6 := ThreeWordsSplit(r3);
    var v0, v1, v2, c0, c1, c2, _ := ThreeWordsSplit(r0);
    PLine(r0, r3, v0, v1, v2, v3, v4, v5, c0, c1, c2, c3, c4, c5);
    m := P(v0, v1, v2, v3, v4, v5);
    ends := [c0, c1, c2, c3, c4, c5];
  }

  /** Two runs of three ended words make the six ended words of a P line. */
  lemma PLine(r0: string, r3: string, v0: string, v1: string, v2: string, v3: string, v4: string,
              v5: string, c0: char, c1: char, c2: char, c3: char, c4: char, c5: char)
    requires c0 in WS && c1 in WS && c2 in WS && c3 in WS && c4 in WS && c5 in WS
    requires r0 == Field(v0, c0, Field(v1, c1, Field(v2, c2, r3)))
    requires r3 == Field(v3, c3, Field(v4, c4, Field(v5, c5, [])))
    ensures Ends([c0, c1, c2, c3, c4, c5])
    ensures "P\t" + r0 == PEndedBy(P(v0, v1, v2, v3, v4, v5), [c0, c1, c2, c3, c4, c5])
  {
  }

  /** The six words `PRaw` reads all succeed when it does. */
  lemma PSteps(s: string)
    requires PRaw(s).Done?
    ensures Literal(s, "P\t").Done? && var w0 := Word(Literal(s, "P\t").rest);
            w0.Done? && var w1 := Word(w0.rest);
            w1.Done? && var w2 := Word(w1.rest);
            w2.Done? && var w3 := Word(w2.rest);
            w3.Done? && var w4 := Word(w3.rest);
            w4.Done? && var w5 := Word(w4.rest);
            w5.Done? && w5.rest == PRaw(s).rest
  {
  }

  /** Each word of a P line may be ended by a tab or a newline. */
  lemma PAnyEndings(m: P, ends: seq<char>)
    requires IsWord(m.p0) && IsWord(m.p1) && IsWord(m.p2)
    requires IsWord(m.p3) && IsWord(m.p4) && IsWord(m.p5)
    requires |ends| == 6 && Ends(ends)
    ensures ParseP(PEndedBy(m, ends)) == Ok(m)
  {
    var r5 := Field(m.p5, ends[5], []);
    var r4 := Field(m.p4, ends[4], r5);
    var r3 := Field(m.p3, ends[3], r4);
    var r2 := Field(m.p2, ends[2], r3);
    var r1 := Field(m.p1, ends[1], r2);
    LiteralOn("P\t", Field(m.p0, ends[0], r1));
    WordOn(m.p0, ends[0], r1);
    WordOn(m.p1, ends[1], r2);
    WordOn(m.p2, ends[2], r3);
    WordOn(m.p3, ends[3], r4);
    WordOn(m.p4, ends[4], r5);
    WordOn(m.p5, ends[5], []);
  }

  /** Word pairs, the two words of pair `i` ended by `ends[2 * i]` and
      `ends[2 * i + 1]`. */
  function WordPairsEndedBy(ps: seq<(string, string)>, ends: seq<char>, tail: string): string
    requires |ends| == 2 * |ps|
    decreases |ps|
  {
    if ps == [] then tail
    else Field(ps[0].0, ends[0], Field(ps[0].1, ends[1], WordPairsEndedBy(ps[1..], ends[2..], tail)))
  }

  /** Any endings of the word pairs are read back, up to a rest that holds
      no further pair. */
  lemma {:induction false} WordPairsEndedByOn(ps: seq<(string, string)>, ends: seq<char>, rest: string)
    requires AllWords(ps) && |ends| == 2 * |ps| && Ends(ends)
    requires !WordPair(rest).Done?
    ensures WordPairs(WordPairsEndedBy(ps, ends, rest)) == (ps, rest)
    decreases |ps|
  {
    if ps != [] {
      assert [ps[0]] + ps[1..] == ps;
      var tail := WordPairsEndedBy(ps[1..], ends[2..], rest);
      EndsDrop(ends, 2);
      WordPairsEndedByOn(ps[1..], ends[2..], rest);
      WordPairsStep(ps[0], ends[0], ends[1], tail, ps[1..], rest);
    }
  }

  /** One more ended pair in front of pairs already read. */
  lemma WordPairsStep(p: (string, string), c0: char, c1: char, tail: string,
                      ps: seq<(string, string)>, rest: string)
    requires IsWord(p.0) && IsWord(p.1) && c0 in WS && c1 in WS && WordPairs(tail) == (ps, rest)
    ensures WordPairs(Field(p.0, c0, Field(p.1, c1, tail))) == ([p] + ps, rest)
  {
    WordOn(p.0, c0, Field(p.1, c1, tail));
    WordOn(p.1, c1, tail);
  }

  /** A pair read first, ahead of the pairs read after it. */
  lemma WordPairsCons(s: string)
    requires WordPair(s).Done?
    ensures var st := WordPair(s);
            WordPairs(s) == ([st.value] + WordPairs(st.rest).0, WordPairs(st.rest).1)
  {
  }

  /** One ended pair in front of ended pairs. */
  lemma WordPairLine(s: string, q0: string, q1: string, a: string, b: string, c0: char, c1: char,
                     ps: seq<(string, string)>, ends: seq<char>, rest: string)
    requires c0 in WS && c1 in WS && |ends| == 2 * |ps| && Ends(ends)
    requires s == Field(a, c0, q0) && q0 == Field(b, c1, q1) && q1 == WordPairsEndedBy(ps, ends, rest)
    ensures |[c0, c1] + ends| == 2 * |[(a, b)] + ps| && Ends([c0, c1] + ends)
    ensures s == WordPairsEndedBy([(a, b)] + ps, [c0, c1] + ends, rest)
  {
    assert ([(a, b)] + ps)[1..] == ps && ([c0, c1] + ends)[2..] == ends;
    forall i | 0 <= i < |ends| + 2 ensures ([c0, c1] + ends)[i] in WS {
      if i >= 2 { assert ([c0, c1] + ends)[i] == ends[i - 2]; }
    }
  }

  /** What `many0(pair(word, word))` consumed is its pairs, each word ended by
      a tab or a newline. */
  lemma {:induction false} WordPairsSplit(s: string) returns (ends: seq<char>)
    ensures var ps := WordPairs(s).0;
            |ends| == 2 * |ps| && Ends(ends) && s == WordPairsEndedBy(ps, ends, WordPairs(s).1)
    decreases |s|
  {
    if WordPair(s).Done? {
      var a, c0, q0 := WordParts(s);
      var b, c1, q1 := WordParts(q0);
      assert WordPair(s) == Done((a, b), q1);
      var ends' := WordPairsSplit(q1);
      WordPairsCons(s);
      WordPairLine(s, q0, q1, a, b, c0, c1, WordPairs(q1).0, ends', WordPairs(q1).1);
      ends := [c0, c1] + ends';
    } else {
      ends := [];
    }
  }

  /** An M line is "M\t" and then its pairs, each word ended by one tab or
      newline. */
  lemma MExact(s: string)
    requires ParseM(s).Ok?
    ensures var ps := ParseM(s).msg.instances;
            exists ends :: |ends| == 2 * |ps| && Ends(ends) && s == "M\t" + WordPairsEndedBy(ps, ends, [])
  {
    LiteralSplit(s, "M\t");
    var ends := WordPairsSplit(Literal(s, "M\t").rest);
  }

  /** Each word of an M line may be ended by a tab or a newline. */
  lemma MAnyEndings(ps: seq<(string, string)>, ends: seq<char>)
    requires |ps| >= 1 && AllWords(ps)
    requires |ends| == 2 * |ps| && Ends(ends)
    ensures ParseM("M\t" + WordPairsEndedBy(ps, ends, [])) == Ok(M(ps))
  {
    assert !WordPair([]).Done?;
    WordPairsEndedByOn(ps, ends, []);
    LiteralOn("M\t", WordPairsEndedBy(ps, ends, []));
  }

  /** A data item read first, ahead of the items read after it. */
  lemma DataItemsCons(s: string)
    requires DataItem(s).Done?
    ensures var st := DataItem(s);
            DataItems(s) == ([st.value] + DataItems(st.rest).0, DataItems(st.rest).1)
  {
  }

  /** What one data item consumed: its key, "=", its value and the tab or
      newline after the value. */
  lemma DataItemParts(s: string) returns (k: string, v: string, c: char)
    requires DataItem(s).Done?
    ensures DataItem(s).value == (k, v) && c in WS && s == Field(k, EQ, Field(v, c, DataItem(s).rest))
  {
    UntilTagIsTakenIgnore(s, EQ);
    LibGrammar.TakenIgnoreSplitOne(s, EQ);
    var q1;
    v, c, q1 := WordParts(UntilTag(s, EQ).rest);
    k := UntilTag(s, EQ).value;
  }

  /** One ended data item in front of ended data items. */
  lemma DataItemLine(s: string, q: string, k: string, v: string, c: char,
                     ps: seq<(string, string)>, ends: seq<char>, rest: string)
    requires c in WS && |ends| == |ps| && Ends(ends)
    requires s == Field(k, EQ, Field(v, c, q)) && q == LibGrammar.PairsEndedBy(ps, ends, EQ, rest)
    ensures |[c] + ends| == |[(k, v)] + ps| && Ends([c] + ends)
    ensures s == LibGrammar.PairsEndedBy([(k, v)] + ps, [c] + ends, EQ, rest)
  {
    EndsCons(c, ends);
    LibGrammar.PairsEndedByCons((k, v), ps, c, ends, EQ, rest);
  }

  /** What the data items consumed is the items, each value ended by a tab or
      a newline. */
  lemma {:induction false} DataItemsSplit(s: string) returns (ends: seq<char>)
    ensures var ps := DataItems(s).0;
            |ends| == |ps| && Ends(ends) && s == LibGrammar.PairsEndedBy(ps, ends, EQ, DataItems(s).1)
    decreases |s|
  {
    if DataItem(s).Done? {
      var k, v, c := DataItemParts(s);
      var q := DataItem(s).rest;
      var ends' := DataItemsSplit(q);
      DataItemsCons(s);
      DataItemLine(s, q, k, v, c, DataItems(q).0, ends', DataItems(q).1);
      ends := [c] + ends';
    } else {
      ends := [];
    }
  }

  /** Any endings of the data items are read back, up to a rest that holds no
      further item. */
  lemma {:induction false} DataItemsEndedByOn(ps: seq<(string, string)>, ends: seq<char>, rest: string)
    requires DataAvoid(ps) && |ends| == |ps| && Ends(ends)
    requires !DataItem(rest).Done?
    ensures DataItems(LibGrammar.PairsEndedBy(ps, ends, EQ, rest)) == (ps, rest)
    decreases |ps|
  {
    if ps != [] {
      assert [ps[0]] + ps[1..] == ps;
      var tail := LibGrammar.PairsEndedBy(ps[1..], ends[1..], EQ, rest);
      EndsDrop(ends, 1);
      DataItemsEndedByOn(ps[1..], ends[1..], rest);
      DataItemsStep(ps[0], ends[0], tail, ps[1..], rest);
    }
  }

  /** One more ended data item in front of items already read. */
  lemma DataItemsStep(p: (string, string), c: char, tail: string, ps: seq<(string, string)>, rest: string)
    requires Avoids(p.0, {EQ}) && IsWord(p.1) && c in WS && DataItems(tail) == (ps, rest)
    ensures DataItems(Field(p.0, EQ, Field(p.1, c, tail))) == ([p] + ps, rest)
  {
    DataItemOn(p.0, p.1, c, tail);
  }

  /** The name, the model and the four characters `GRaw` reads ahead of its
      data items. */
  lemma GHead(s: string) returns (name: string, e0: char, model: string, e1: char, r3: string)
    requires GRaw(s).Done?
    ensures IsWord(name) && IsWord(model) && e0 in WS && e1 in WS
    ensures GRaw(s).value.name == name && GRaw(s).value.model == PaymentStatusFrom(model)
    ensures (GRaw(s).value.data, GRaw(s).rest) == DataItems(r3)
    ensures s == "G\t" + Field(name, e0, Field(model, e1, "0\t\t" + r3))
  {
    var r0 := Literal(s, "G\t").rest;
    LiteralSplit(s, "G\t");
    var q0, q1;
    name, e0, q0 := WordParts(r0);
    model, e1, q1 := WordParts(q0);
    LiteralSplit(q1, "0\t\t");
    r3 := Literal(q1, "0\t\t").rest;
  }

  /** A G line is "G\t", two words, "0\t\t" and its data items, each word and
      each value ended by one tab or newline. */
  lemma GExact(s: string)
    requires ParseG(s).Ok?
    ensures var m := ParseG(s).msg;
            exists e0, e1, ends :: e0 in WS && e1 in WS && |ends| == |m.data| && Ends(ends)
                                   && s == LibGrammar.GEndedBy(m, e0, e1, ends)
  {
    var name, e0, model, e1, r3 := GHead(s);
    var ends := DataItemsSplit(r3);
    var m := ParseG(s).msg;
    assert s == "G\t" + Field(name, e0, Field(model, e1, "0\t\t" + LibGrammar.PairsEndedBy(m.data, ends, EQ, [])));
    GAnyEndings(m, e0, e1, ends);
  }

  /** Each word and each value of a G line may be ended by a tab or a
      newline. */
  lemma GAnyEndings(m: G, e0: char, e1: char, ends: seq<char>)
    requires IsWord(m.name) && IsWord(PaymentStatusText(m.model)) && m.model.Canonical()
    requires |m.data| >= 1 && DataAvoid(m.data)
    requires e0 in WS && e1 in WS && |ends| == |m.data| && Ends(ends)
    ensures ParseG(LibGrammar.GEndedBy(m, e0, e1, ends)) == Ok(m)
  {
    var model := PaymentStatusText(m.model);
    var r3 := LibGrammar.PairsEndedBy(m.data, ends, EQ, []);
    var r1 := Field(model, e1, "0\t\t" + r3);
    LiteralOn("G\t", Field(m.name, e0, r1));
    WordOn(m.name, e0, r1);
    WordOn(model, e1, "0\t\t" + r3);
    LiteralOn("0\t\t", r3);
    assert !DataItem([]).Done?;
    DataItemsEndedByOn(m.data, ends, []);
    PaymentStatusRoundTrip(m.model);
  }

  /** The C counts are read as the chumsky backend reads them. */
  lemma CountsSameAsLib(s: string)
    ensures Counts(s) == LibGrammar.Counts(s)
  {
    TagNumberTagIsTaggedNumber(s, "C\t", TAB);
    var t0 := TagNumberTag(s, "C\t", TAB);
    if t0.Done? {
      NumberTagIsNumberThen(t0.rest, TAB);
      var t1 := NumberTag(t0.rest, TAB);
      if t1.Done? {
        NumberTagIsNumberThen(t1.rest, TAB);
      }
    }
  }

  /** A C line is its four counts, each spelled by some run of digits, the
      last ended by a tab or a newline, then its pairs, each word ended by a
      tab or a newline. */
  lemma CExact(s: string)
    requires ParseC(s).Ok?
    ensures var m := ParseC(s).msg;
            exists d0, d1, d2, d3, c, ends ::
              Spells(d0, m.numCharacters) && Spells(d1, m.maxCharacters) && Spells(d2, m.n0)
              && Spells(d3, m.n1) && c in WS && |ends| == 2 * |m.characters| && Ends(ends)
              && s == LibGrammar.CountsLine(d0, d1, d2, d3, c, WordPairsEndedBy(m.characters, ends, []))
  {
    CountsSameAsLib(s);
    LibGrammar.CountsSplit(s);
    var ends := WordPairsSplit(Counts(s).rest);
  }

  /** A C line is read back whatever the spelling of its counts and whichever
      of tab and newline ends the last count and each word. */
  lemma CAnySpelling(m: C, d0: string, d1: string, d2: string, d3: string, c: char, ends: seq<char>)
    requires AllWords(m.characters)
    requires Spells(d0, m.numCharacters) && Spells(d1, m.maxCharacters) && Spells(d2, m.n0)
    requires Spells(d3, m.n1) && c in WS
    requires |ends| == 2 * |m.characters| && Ends(ends)
    ensures ParseC(LibGrammar.CountsLine(d0, d1, d2, d3, c, WordPairsEndedBy(m.characters, ends, []))) == Ok(m)
  {
    var line := LibGrammar.CountsLine(d0, d1, d2, d3, c, WordPairsEndedBy(m.characters, ends, []));
    CountsSameAsLib(line);
    LibGrammar.CountsSpelledOn(d0, d1, d2, d3, c, WordPairsEndedBy(m.characters, ends, []),
                               (m.numCharacters, m.maxCharacters, m.n0, m.n1));
    assert !WordPair([]).Done?;
    WordPairsEndedByOn(m.characters, ends, []);
  }

  /** An N line is the chumsky backend's shape: its protocol ended by `|` or
      a newline, then its access line, if any. */
  lemma NExact(s: string)
    requires ParseN(s).Ok?
    ensures s == LibGrammar.NEndedBy(ParseN(s).msg, BAR) || s == LibGrammar.NEndedBy(ParseN(s).msg, NL)
  {
    NSameAsLibUnlessEmptyProtocol(s);
    LibGrammar.NExact(s);
  }

  /** An N line with a non-empty protocol is read back whichever of `|` and
      the newline ends the protocol. */
  lemma NAnyEnding(m: N, c: char)
    requires m.environment.Canonical() && Avoids(EnvironmentText(m.environment), {BAR})
    requires m.protocol.Canonical() && ProtocolText(m.protocol) != [] && Avoids(ProtocolText(m.protocol), BAR_NL)
    requires m.access.Canonical() && (m.access.Other? ==> Avoids(m.access.text, {NL}))
    requires c in BAR_NL
    ensures ParseN(LibGrammar.NEndedBy(m, c)) == Ok(m)
  {
    NSameAsLibUnlessEmptyProtocol(LibGrammar.NEndedBy(m, c));
    LibGrammar.NAnyEnding(m, c);
  }

  /** An F line is exactly its canonical line. */
  lemma FExact(s: string)
    requires ParseF(s).Ok?
    ensures s == RenderF(ParseF(s).msg, [])
  {
    FSameAsLib(s);
    LibGrammar.FExact(s);
  }

  /** An L line is its canonical line up to the spelling of its two numbers. */
  lemma LExact(s: string)
    requires ParseL(s).Ok?
    ensures var m := ParseL(s).msg;
            exists up, port :: Spells(up, m.upport) && Spells(port, m.gamePort)
                               && s == LibGrammar.LSpelled(m, up, port)
  {
    LSameAsLib(s);
    LibGrammar.LExact(s);
  }

  /** An L line is read back whatever the spelling of its two numbers. */
  lemma LAnySpelling(m: L, up: string, port: string)
    requires Avoids(m.game, {TAB}) && Avoids(m.gameCode, {TAB}) && Avoids(m.fullGameName, {TAB})
    requires Avoids(m.gameFile, {TAB}) && Avoids(m.gameHost, {TAB}) && Avoids(m.key, {NL})
    requires Spells(up, m.upport) && Spells(port, m.gamePort)
    ensures ParseL(LibGrammar.LSpelled(m, up, port)) == Ok(m)
  {
    LSameAsLib(LibGrammar.LSpelled(m, up, port));
    LibGrammar.LAnySpelling(m, up, port);
  }

  // ---------------------------------------------------------------------
  // The two backends compared

  /** F is read identically by both backends. */
  lemma FSameAsLib(s: string)
    ensures ParseF(s) == LibGrammar.ParseF(s)
  {
    TagUntilTagIsTagged(s, "F\t", NL);
  }

  /** L is read identically by both backends, panics included. */
  lemma LSameAsLib(s: string)
    ensures ParseL(s) == LibGrammar.ParseL(s)
  {
    LRawSameAsLib(s);
  }

  lemma LRawSameAsLib(s: string)
    ensures LRaw(s) == LibGrammar.LRaw(s)
  {
    TagNumberTagIsTaggedNumber(s, "L\tOK\tUPPORT=", TAB);
    var a0 := TagNumberTag(s, "L\tOK\tUPPORT=", TAB);
    if a0.Done? {
      TagUntilTagIsTagged(a0.rest, "GAME=", TAB);
      var a1 := TagUntilTag(a0.rest, "GAME=", TAB);
      if a1.Done? {
        TagUntilTagIsTagged(a1.rest, "GAMECODE=", TAB);
        var a2 := TagUntilTag(a1.rest, "GAMECODE=", TAB);
        if a2.Done? {
          TagUntilTagIsTagged(a2.rest, "FULLGAMENAME=", TAB);
          var a3 := TagUntilTag(a2.rest, "FULLGAMENAME=", TAB);
          if a3.Done? {
            TagUntilTagIsTagged(a3.rest, "GAMEFILE=", TAB);
            var a4 := TagUntilTag(a3.rest, "GAMEFILE=", TAB);
            if a4.Done? {
              TagUntilTagIsTagged(a4.rest, "GAMEHOST=", TAB);
              var a5 := TagUntilTag(a4.rest, "GAMEHOST=", TAB);
              if a5.Done? {
                TagNumberTagIsTaggedNumber(a5.rest, "GAMEPORT=", TAB);
                var a6 := TagNumberTag(a5.rest, "GAMEPORT=", TAB);
                if a6.Done? {
                  TagUntilTagIsTagged(a6.rest, "KEY=", NL);
                }
              }
            }
          }
        }
      }
    }
  }

  /** N: the nom backend refuses an empty protocol field and otherwise reads
      every line as the chumsky backend does. */
  lemma NSameAsLibUnlessEmptyProtocol(s: string)
    ensures ParseN(s) == (var l := LibGrammar.ParseN(s);
                          if l.Ok? && ProtocolText(l.msg.protocol) == [] then ParseError else l)
  {
    var st0 := Literal(s, "N\t");
    if st0.Done? {
      UntilTagIsTakenIgnore(st0.rest, BAR);
      var e := LibGrammar.TakenIgnore(st0.rest, {BAR});
      if e.Done? {
        TerminatedIsTakenIgnore(e.rest, BAR_NL);
        var p := LibGrammar.TakenIgnore(e.rest, BAR_NL);
        if p.Done? {
          UntilTagIsTakenIgnore(p.rest, NL);
        }
      }
    }
  }

  lemma FRoundTrip(m: F, extra: string)
    requires Avoids(PaymentStatusText(m.status), {NL}) && m.status.Canonical()
    ensures ParseF(RenderF(m, extra)) == if extra == [] then Ok(m) else ParseError
  {
    FSameAsLib(RenderF(m, extra));
    LibGrammar.FRoundTrip(m, extra);
  }

  lemma LRoundTrip(m: L, extra: string)
    requires Avoids(m.game, {TAB}) && Avoids(m.gameCode, {TAB}) && Avoids(m.fullGameName, {TAB})
    requires Avoids(m.gameFile, {TAB}) && Avoids(m.gameHost, {TAB}) && Avoids(m.key, {NL})
    ensures ParseL(RenderL(m, extra)) == if extra == [] then Ok(m) else ParseError
  {
    LSameAsLib(RenderL(m, extra));
    LibGrammar.LRoundTrip(m, extra);
  }

  /** A K line whose key holds a tab: chumsky reads the whole line as the
      key, nom stops the word at the tab and then finds input left over. */
  lemma KBackendsDisagreeOnTab()
    ensures LibGrammar.ParseK("ab\tc\n") == Ok(K("ab\tc"))
    ensures ParseK("ab\tc\n") == ParseError
  {
    LibGrammar.TakenIgnoreOn("ab\tc", NL, [], {NL});
    assert Field("ab\tc", NL, []) == "ab\tc\n";
    WordOn("ab", TAB, "c\n");
    assert Field("ab", TAB, "c\n") == "ab\tc\n";
  }

  /** A K line ended by a tab: nom accepts it, chumsky finds no newline. */
  lemma KBackendsDisagreeOnMissingNewline()
    ensures ParseK("ab\t") == Ok(K("ab"))
    ensures LibGrammar.ParseK("ab\t") == ParseError
  {
    WordOn("ab", TAB, []);
    assert Field("ab", TAB, []) == "ab\t";
    assert Avoids("ab\t", {NL});
  }
}
