/** The chumsky backend (lib.rs): the `taken_ignore` primitive, the nine
    `Message::parser` grammars and `Message::parse`. */
module LibGrammar {
  import opened Wire
  import opened Enums
  import opened Messages

  // ---------------------------------------------------------------------
  // taken_ignore

  /** `taken_ignore(term)` where `term` matches one character of `stop`: the
      longest run of characters that are not terminators, then exactly one
      terminator, which is consumed and not returned. Fails when no
      terminator occurs before the end of the input. */
  function TakenIgnore(s: string, stop: set<char>): (r: Step<string>)
    ensures !r.Panic?
    ensures r.Fail? <==> Avoids(s, stop)
    ensures r.Done? ==> Avoids(r.value, stop) && |r.value| + 1 + |r.rest| == |s|
    decreases |s|
  {
    if s == [] then Fail
    else if s[0] in stop then Done([], s[1..])
    else
      match TakenIgnore(s[1..], stop)
      case Done(t, rest) => Done([s[0]] + t, rest)
      case _ => Fail
  }

  /** What `TakenIgnore` consumed is the token, one terminator and nothing
      else. */
  lemma {:induction false} TakenIgnoreSplit(s: string, stop: set<char>)
    requires TakenIgnore(s, stop).Done?
    ensures var r := TakenIgnore(s, stop);
            s[|r.value|] in stop && s == Field(r.value, s[|r.value|], r.rest)
  {
    if s[0] !in stop {
      TakenIgnoreSplit(s[1..], stop);
      var t := TakenIgnore(s[1..], stop);
      var c := s[1..][|t.value|];
      assert s[1..] == t.value + ([c] + t.rest);
      assert s == ([s[0]] + t.value) + ([c] + t.rest);
    } else {
      assert s == [] + ([s[0]] + s[1..]);
    }
  }

  /** With a single terminator, what `TakenIgnore` consumed is the token and
      that terminator. */
  lemma TakenIgnoreSplitOne(s: string, c: char)
    requires TakenIgnore(s, {c}).Done?
    ensures s == Field(TakenIgnore(s, {c}).value, c, TakenIgnore(s, {c}).rest)
  {
    TakenIgnoreSplit(s, {c});
  }

  /** A token free of terminators followed by one terminator is read back
      exactly, and the input after the terminator is left alone. */
  lemma {:induction false} TakenIgnoreOn(tok: string, c: char, rest: string, stop: set<char>)
    requires Avoids(tok, stop) && c in stop
    ensures TakenIgnore(Field(tok, c, rest), stop) == Done(tok, rest)
  {
    if tok == [] {
      assert Field(tok, c, rest) == [c] + rest;
    } else {
      assert Field(tok, c, rest)[1..] == Field(tok[1..], c, rest);
      TakenIgnoreOn(tok[1..], c, rest, stop);
      assert [tok[0]] + tok[1..] == tok;
    }
  }

  // ---------------------------------------------------------------------
  // Repeated pairs (M, G, C)

  /** `group((taken_ignore(first), taken_ignore(one_of("\t\n"))))`. */
  function Pair(s: string, first: set<char>): (r: Step<(string, string)>)
    ensures !r.Panic?
    ensures r.Done? ==> Avoids(r.value.0, first) && Avoids(r.value.1, WS) && |r.rest| + 2 <= |s|
  {
    var (a, r0) :- TakenIgnore(s, first);
    var (b, r1) :- TakenIgnore(r0, WS);
    Done((a, b), r1)
  }

  /** Every pair of a list is free of the delimiters that end its fields. */
  predicate PairsAvoid(ps: seq<(string, string)>, first: set<char>) {
    forall i :: 0 <= i < |ps| ==> Avoids(ps[i].0, first) && Avoids(ps[i].1, WS)
  }

  /** `.repeated()`: greedy repetition of `Pair`, stopping (successfully) at the
      first position where another pair does not match. */
  function Pairs(s: string, first: set<char>): (r: (seq<(string, string)>, string))
    ensures PairsAvoid(r.0, first)
    ensures !Pair(r.1, first).Done?
    ensures |r.1| <= |s| && (r.0 == [] <==> r.1 == s)
    decreases |s|
  {
    match Pair(s, first)
    case Done(p, rest) =>
      var (ps, rest') := Pairs(rest, first);
      ([p] + ps, rest')
    case _ => ([], s)
  }

  lemma PairOn(a: string, b: string, c: char, rest: string, first: set<char>, sep: char)
    requires Avoids(a, first) && Avoids(b, WS) && c in WS && sep in first
    ensures Pair(Field(a, sep, Field(b, c, rest)), first) == Done((a, b), rest)
  {
    TakenIgnoreOn(a, sep, Field(b, c, rest), first);
    TakenIgnoreOn(b, c, rest, WS);
  }

  /** The canonical rendering of a list of pairs reads back as the same list,
      when no further pair can start where it ends. */
  lemma {:induction false} PairsOn(ps: seq<(string, string)>, sep: char, first: set<char>, rest: string)
    requires PairsAvoid(ps, first) && sep in first
    requires !Pair(rest, first).Done?
    ensures Pairs(RenderPairs(ps, sep, rest), first) == (ps, rest)
  {
    if ps != [] {
      var c := if |ps| == 1 then NL else TAB;
      PairOn(ps[0].0, ps[0].1, c, RenderPairs(ps[1..], sep, rest), first, sep);
      PairsOn(ps[1..], sep, first, rest);
      assert [ps[0]] + ps[1..] == ps;
    }
  }

  // ---------------------------------------------------------------------
  // Labelled segments (C, L)

  /** `number().then_ignore(one_of(stop))`: a number and the one character
      that ends it. */
  function NumberThen(s: string, stop: set<char>): Step<U64> {
    var (n, r0) :- Number(s);
    var (_, r1) :- OneOf(r0, stop);
    Done(n, r1)
  }

  lemma NumberThenOn(n: U64, c: char, rest: string, stop: set<char>)
    requires c in stop && !IsDigit(c)
    ensures NumberThen(Field(Decimal(n), c, rest), stop) == Done(n, rest)
  {
    NumberRoundTrip(n, [c] + rest);
    OneOfOn(c, rest, stop);
  }

  /** Any spelling of the number, leading zeros included, followed by the
      character is read exactly. */
  lemma NumberThenSpelledOn(ds: string, n: U64, c: char, rest: string, stop: set<char>)
    requires Spells(ds, n) && c in stop && !IsDigit(c)
    ensures NumberThen(Field(ds, c, rest), stop) == Done(n, rest)
  {
    NumberOn(ds, n, [c] + rest);
    OneOfOn(c, rest, stop);
  }

  /** What `NumberThen` consumed is a spelling of its value and the one
      character that ended it. */
  lemma NumberThenSplit(s: string, stop: set<char>)
    requires NumberThen(s, stop).Done?
    ensures exists ds, c :: Spells(ds, NumberThen(s, stop).value) && c in stop
                            && s == Field(ds, c, NumberThen(s, stop).rest)
  {
    NumberSplit(s);
    var k := DigitRun(s);
    var r0 := Number(s).rest;
    assert r0 == s[k..];
    assert OneOf(r0, stop) == Done(s[k], s[k + 1..]);
    assert s[k..] == [s[k]] + s[k + 1..];
    assert s == Field(s[..k], s[k], s[k + 1..]);
  }

  /** `just(tag).ignore_then(taken_ignore(..))`. */
  function Tagged(s: string, tag: string, stop: set<char>): (r: Step<string>)
    ensures !r.Panic?
    ensures r.Done? ==> Avoids(r.value, stop)
  {
    var (_, r0) :- Literal(s, tag);
    TakenIgnore(r0, stop)
  }

  lemma TaggedOn(tag: string, tok: string, c: char, rest: string, stop: set<char>)
    requires Avoids(tok, stop) && c in stop
    ensures Tagged(tag + Field(tok, c, rest), tag, stop) == Done(tok, rest)
  {
    LiteralOn(tag, Field(tok, c, rest));
    TakenIgnoreOn(tok, c, rest, stop);
  }

  /** `just(tag).ignore_then(number().then_ignore(one_of(stop)))`. */
  function TaggedNumber(s: string, tag: string, stop: set<char>): Step<U64> {
    var (_, r0) :- Literal(s, tag);
    NumberThen(r0, stop)
  }

  lemma TaggedNumberOn(tag: string, n: U64, c: char, rest: string, stop: set<char>)
    requires c in stop && !IsDigit(c)
    ensures TaggedNumber(tag + Field(Decimal(n), c, rest), tag, stop) == Done(n, rest)
  {
    LiteralOn(tag, Field(Decimal(n), c, rest));
    NumberThenOn(n, c, rest, stop);
  }

  // ---------------------------------------------------------------------
  // The nine grammars, as in `Message::parser`, before the end-of-input check

  function KRaw(s: string): Step<K> {
    var (key, r) :- TakenIgnore(s, {NL});
    Done(K(key), r)
  }

  function ARaw(s: string): Step<A> {
    var (_, r0) :- Literal(s, "A\t");
    var (account, r1) :- TakenIgnore(r0, {TAB});
    var (_, r2) :- Literal(r1, "KEY\t");
    var (key, r3) :- TakenIgnore(r2, {TAB});
    var (name, r4) :- TakenIgnore(r3, {NL});
    Done(A(account, key, name), r4)
  }

  function MRaw(s: string): Step<M> {
    var (_, r0) :- Literal(s, "M\t");
    var (ps, r1) := Pairs(r0, {TAB});
    if ps == [] then Fail else Done(M(ps), r1)
  }

  function NRaw(s: string): Step<N> {
    var (_, r0) :- Literal(s, "N\t");
    var (env, r1) :- TakenIgnore(r0, {BAR});
    var (proto, r2) :- TakenIgnore(r1, BAR_NL);
    var (access, r3) := OptionalLine(r2);
    Done(N(EnvironmentFrom(env), ProtocolFrom(proto), AccessFrom(access)), r3)
  }

  /** `taken_ignore(just('\n')).or_not()`: the rest of the line when a
      newline follows, otherwise nothing and no input consumed. */
  function OptionalLine(s: string): (r: (Option<string>, string))
    ensures r.0.None? <==> Avoids(s, {NL})
    ensures r.0.None? ==> r.1 == s
  {
    match TakenIgnore(s, {NL})
    case Done(a, rest) => (Some(a), rest)
    case _ => (Option.None, s)
  }

  function FRaw(s: string): Step<F> {
    var (_, r0) :- Literal(s, "F\t");
    var (status, r1) :- TakenIgnore(r0, {NL});
    Done(F(PaymentStatusFrom(status)), r1)
  }

  function GRaw(s: string): Step<G> {
    var (_, r0) :- Literal(s, "G\t");
    var (name, r1) :- TakenIgnore(r0, {TAB});
    var (model, r2) :- TakenIgnore(r1, {TAB});
    var (_, r3) :- Literal(r2, "0\t\t");
    var (data, r4) := Pairs(r3, {EQ});
    if data == [] then Fail else Done(G(name, PaymentStatusFrom(model), data), r4)
  }

  function PRaw(s: string): Step<P> {
    var (_, r0) :- Literal(s, "P\t");
    var (p0, r1) :- TakenIgnore(r0, {TAB});
    var (p1, r2) :- TakenIgnore(r1, {TAB});
    var (p2, r3) :- TakenIgnore(r2, {TAB});
    var (p3, r4) :- TakenIgnore(r3, {TAB});
    var (p4, r5) :- TakenIgnore(r4, {TAB});
    var (p5, r6) :- TakenIgnore(r5, {NL});
    Done(P(p0, p1, p2, p3, p4, p5), r6)
  }

  /** The four counts of C, each ended by a tab except the last, which may
      also be ended by a newline. */
  function Counts(s: string): Step<(U64, U64, U64, U64)> {
    var (nc, r0) :- TaggedNumber(s, "C\t", {TAB});
    var (ns, r1) :- NumberThen(r0, {TAB});
    var (n0, r2) :- NumberThen(r1, {TAB});
    var (n1, r3) :- NumberThen(r2, WS);
    Done((nc, ns, n0, n1), r3)
  }

  function CRaw(s: string): (r: Step<C>)
    ensures r.Done? ==> PairsAvoid(r.value.characters, {TAB})
  {
    var (n, r0) :- Counts(s);
    var (characters, r1) := Pairs(r0, {TAB});
    Done(C(n.0, n.1, n.2, n.3, characters), r1)
  }

  function LRaw(s: string): (r: Step<L>)
    ensures r.Done? ==>
      Avoids(r.value.game, {TAB}) && Avoids(r.value.gameCode, {TAB}) && Avoids(r.value.fullGameName, {TAB})
      && Avoids(r.value.gameFile, {TAB}) && Avoids(r.value.gameHost, {TAB}) && Avoids(r.value.key, {NL})
  {
    var (upport, r0) :- TaggedNumber(s, "L\tOK\tUPPORT=", {TAB});
    var (game, r1) :- Tagged(r0, "GAME=", {TAB});
    var (gameCode, r2) :- Tagged(r1, "GAMECODE=", {TAB});
    var (fullGameName, r3) :- Tagged(r2, "FULLGAMENAME=", {TAB});
    var (gameFile, r4) :- Tagged(r3, "GAMEFILE=", {TAB});
    var (gameHost, r5) :- Tagged(r4, "GAMEHOST=", {TAB});
    var (gamePort, r6) :- TaggedNumber(r5, "GAMEPORT=", {TAB});
    var (key, r7) :- Tagged(r6, "KEY=", {NL});
    Done(L(upport, game, gameCode, fullGameName, gameFile, gameHost, gamePort, key), r7)
  }

  // ---------------------------------------------------------------------
  // Message::parse: the grammar, then end of input

  function ParseK(s: string): (r: Outcome<K>)
    ensures !r.Panicked?
    ensures r.Ok? ==> Avoids(r.msg.key, {NL})
  {
    Finish(KRaw(s))
  }

  function ParseA(s: string): (r: Outcome<A>)
    ensures !r.Panicked?
    ensures r.Ok? ==> Avoids(r.msg.account, {TAB}) && Avoids(r.msg.key, {TAB}) && Avoids(r.msg.name, {NL})
  {
    Finish(ARaw(s))
  }

  function ParseM(s: string): (r: Outcome<M>)
    ensures !r.Panicked?
    ensures r.Ok? ==> |r.msg.instances| >= 1 && PairsAvoid(r.msg.instances, {TAB})
  {
    Finish(MRaw(s))
  }

  function ParseN(s: string): (r: Outcome<N>)
    ensures !r.Panicked?
    ensures r.Ok? ==> Avoids(EnvironmentText(r.msg.environment), {BAR})
                      && Avoids(ProtocolText(r.msg.protocol), BAR_NL)
                      && (r.msg.access.Other? ==> Avoids(r.msg.access.text, {NL}))
  {
    Finish(NRaw(s))
  }

  function ParseF(s: string): (r: Outcome<F>)
    ensures !r.Panicked?
    ensures r.Ok? ==> Avoids(PaymentStatusText(r.msg.status), {NL})
  {
    Finish(FRaw(s))
  }

  function ParseG(s: string): (r: Outcome<G>)
    ensures !r.Panicked?
    ensures r.Ok? ==> Avoids(r.msg.name, {TAB}) && Avoids(PaymentStatusText(r.msg.model), {TAB})
                      && |r.msg.data| >= 1 && PairsAvoid(r.msg.data, {EQ})
  {
    Finish(GRaw(s))
  }

  function ParseP(s: string): (r: Outcome<P>)
    ensures !r.Panicked?
    ensures r.Ok? ==> Avoids(r.msg.p0, {TAB}) && Avoids(r.msg.p1, {TAB}) && Avoids(r.msg.p2, {TAB})
                      && Avoids(r.msg.p3, {TAB}) && Avoids(r.msg.p4, {TAB}) && Avoids(r.msg.p5, {NL})
  {
    Finish(PRaw(s))
  }

  function ParseC(s: string): (r: Outcome<C>)
    ensures r.Ok? ==> PairsAvoid(r.msg.characters, {TAB})
  {
    Finish(CRaw(s))
  }

  function ParseL(s: string): (r: Outcome<L>)
    ensures r.Ok? ==> Avoids(r.msg.game, {TAB}) && Avoids(r.msg.gameCode, {TAB})
                      && Avoids(r.msg.fullGameName, {TAB}) && Avoids(r.msg.gameFile, {TAB})
                      && Avoids(r.msg.gameHost, {TAB}) && Avoids(r.msg.key, {NL})
  {
    Finish(LRaw(s))
  }

  // ---------------------------------------------------------------------
  // Round trips: the canonical line of a message reads back as that message,
  // and text after the line makes `Message::parse` fail

  lemma KRoundTrip(m: K, extra: string)
    requires Avoids(m.key, {NL})
    ensures ParseK(RenderK(m, extra)) == if extra == [] then Ok(m) else ParseError
  {
    TakenIgnoreOn(m.key, NL, extra, {NL});
  }

  lemma ARoundTrip(m: A, extra: string)
    requires Avoids(m.account, {TAB}) && Avoids(m.key, {TAB}) && Avoids(m.name, {NL})
    ensures ParseA(RenderA(m, extra)) == if extra == [] then Ok(m) else ParseError
  {
    var r3 := Field(m.name, NL, extra);
    var r2 := Field(m.key, TAB, r3);
    var r0 := Field(m.account, TAB, "KEY\t" + r2);
    LiteralOn("A\t", r0);
    TakenIgnoreOn(m.account, TAB, "KEY\t" + r2, {TAB});
    LiteralOn("KEY\t", r2);
    TakenIgnoreOn(m.key, TAB, r3, {TAB});
    TakenIgnoreOn(m.name, NL, extra, {NL});
  }

  lemma MRoundTrip(m: M, extra: string)
    requires |m.instances| >= 1 && PairsAvoid(m.instances, {TAB})
    requires !Pair(extra, {TAB}).Done?
    ensures ParseM(RenderM(m, extra)) == if extra == [] then Ok(m) else ParseError
  {
    LiteralOn("M\t", RenderPairs(m.instances, TAB, extra));
    PairsOn(m.instances, TAB, {TAB}, extra);
  }

  /** The environment and protocol of an N line, whichever of `|` and the
      newline ends the protocol; the access is whatever line follows. */
  lemma NHeadOn(env: string, proto: string, c: char, rest: string)
    requires Avoids(env, {BAR}) && Avoids(proto, BAR_NL) && c in BAR_NL
    ensures NRaw("N\t" + Field(env, BAR, Field(proto, c, rest)))
            == Done(N(EnvironmentFrom(env), ProtocolFrom(proto), AccessFrom(OptionalLine(rest).0)),
                    OptionalLine(rest).1)
  {
    var r1 := Field(proto, c, rest);
    LiteralOn("N\t", Field(env, BAR, r1));
    TakenIgnoreOn(env, BAR, r1, {BAR});
    TakenIgnoreOn(proto, c, rest, BAR_NL);
  }

  lemma NRoundTrip(m: N, extra: string)
    requires m.environment.Canonical() && Avoids(EnvironmentText(m.environment), {BAR})
    requires m.protocol.Canonical() && Avoids(ProtocolText(m.protocol), BAR_NL)
    requires m.access.Canonical() && (m.access.Other? ==> Avoids(m.access.text, {NL}))
    requires m.access.None? ==> Avoids(extra, {NL})
    ensures ParseN(RenderN(m, extra)) == if extra == [] then Ok(m) else ParseError
  {
    EnvironmentRoundTrip(m.environment);
    ProtocolRoundTrip(m.protocol);
    AccessRoundTrip(m.access);
    var env := EnvironmentText(m.environment);
    var proto := ProtocolText(m.protocol);
    match m.access
    case None =>
      NHeadOn(env, proto, NL, extra);
    case Trial =>
      assert Avoids("TRIAL", {NL});
      NAccessOn(env, proto, "TRIAL", extra);
    case Other(t) =>
      NAccessOn(env, proto, t, extra);
  }

  /** An N line whose access segment is present. */
  lemma NAccessOn(env: string, proto: string, t: string, extra: string)
    requires Avoids(env, {BAR}) && Avoids(proto, BAR_NL) && Avoids(t, {NL})
    ensures NRaw("N\t" + Field(env, BAR, Field(proto, BAR, Field(t, NL, extra))))
            == Done(N(EnvironmentFrom(env), ProtocolFrom(proto), AccessFrom(Some(t))), extra)
  {
    NHeadOn(env, proto, BAR, Field(t, NL, extra));
    TakenIgnoreOn(t, NL, extra, {NL});
  }

  lemma FRoundTrip(m: F, extra: string)
    requires Avoids(PaymentStatusText(m.status), {NL}) && m.status.Canonical()
    ensures ParseF(RenderF(m, extra)) == if extra == [] then Ok(m) else ParseError
  {
    var t := PaymentStatusText(m.status);
    LiteralOn("F\t", Field(t, NL, extra));
    TakenIgnoreOn(t, NL, extra, {NL});
    PaymentStatusRoundTrip(m.status);
  }

  lemma GRoundTrip(m: G, extra: string)
    requires Avoids(m.name, {TAB}) && Avoids(PaymentStatusText(m.model), {TAB}) && m.model.Canonical()
    requires |m.data| >= 1 && PairsAvoid(m.data, {EQ})
    requires !Pair(extra, {EQ}).Done?
    ensures ParseG(RenderG(m, extra)) == if extra == [] then Ok(m) else ParseError
  {
    var model := PaymentStatusText(m.model);
    var r3 := RenderPairs(m.data, EQ, extra);
    var r1 := Field(model, TAB, "0\t\t" + r3);
    LiteralOn("G\t", Field(m.name, TAB, r1));
    TakenIgnoreOn(m.name, TAB, r1, {TAB});
    TakenIgnoreOn(model, TAB, "0\t\t" + r3, {TAB});
    LiteralOn("0\t\t", r3);
    PairsOn(m.data, EQ, {EQ}, extra);
    PaymentStatusRoundTrip(m.model);
  }

  lemma PRoundTrip(m: P, extra: string)
    requires Avoids(m.p0, {TAB}) && Avoids(m.p1, {TAB}) && Avoids(m.p2, {TAB})
    requires Avoids(m.p3, {TAB}) && Avoids(m.p4, {TAB}) && Avoids(m.p5, {NL})
    ensures ParseP(RenderP(m, extra)) == if extra == [] then Ok(m) else ParseError
  {
    var r5 := Field(m.p5, NL, extra);
    var r4 := Field(m.p4, TAB, r5);
    var r3 := Field(m.p3, TAB, r4);
    var r2 := Field(m.p2, TAB, r3);
    var r1 := Field(m.p1, TAB, r2);
    LiteralOn("P\t", Field(m.p0, TAB, r1));
    TakenIgnoreOn(m.p0, TAB, r1, {TAB});
    TakenIgnoreOn(m.p1, TAB, r2, {TAB});
    TakenIgnoreOn(m.p2, TAB, r3, {TAB});
    TakenIgnoreOn(m.p3, TAB, r4, {TAB});
    TakenIgnoreOn(m.p4, TAB, r5, {TAB});
    TakenIgnoreOn(m.p5, NL, extra, {NL});
  }

  lemma CRoundTrip(m: C, extra: string)
    requires PairsAvoid(m.characters, {TAB})
    requires !Pair(extra, {TAB}).Done?
    ensures ParseC(RenderC(m, extra)) == if extra == [] then Ok(m) else ParseError
  {
    var r4 := RenderPairs(m.characters, TAB, extra);
    var c := if m.characters == [] then NL else TAB;
    var r3 := Field(Decimal(m.n1), c, r4);
    var r2 := Field(Decimal(m.n0), TAB, r3);
    var r1 := Field(Decimal(m.maxCharacters), TAB, r2);
    TaggedNumberOn("C\t", m.numCharacters, TAB, r1, {TAB});
    NumberThenOn(m.maxCharacters, TAB, r2, {TAB});
    NumberThenOn(m.n0, TAB, r3, {TAB});
    NumberThenOn(m.n1, c, r4, WS);
    PairsOn(m.characters, TAB, {TAB}, extra);
  }

  lemma LRoundTrip(m: L, extra: string)
    requires Avoids(m.game, {TAB}) && Avoids(m.gameCode, {TAB}) && Avoids(m.fullGameName, {TAB})
    requires Avoids(m.gameFile, {TAB}) && Avoids(m.gameHost, {TAB}) && Avoids(m.key, {NL})
    ensures ParseL(RenderL(m, extra)) == if extra == [] then Ok(m) else ParseError
  {
    var r6 := "KEY=" + Field(m.key, NL, extra);
    var r5 := "GAMEPORT=" + Field(Decimal(m.gamePort), TAB, r6);
    var r4 := "GAMEHOST=" + Field(m.gameHost, TAB, r5);
    var r3 := "GAMEFILE=" + Field(m.gameFile, TAB, r4);
    var r2 := "FULLGAMENAME=" + Field(m.fullGameName, TAB, r3);
    var r1 := "GAMECODE=" + Field(m.gameCode, TAB, r2);
    var r0 := "GAME=" + Field(m.game, TAB, r1);
    TaggedNumberOn("L\tOK\tUPPORT=", m.upport, TAB, r0, {TAB});
    TaggedOn("GAME=", m.game, TAB, r1, {TAB});
    TaggedOn("GAMECODE=", m.gameCode, TAB, r2, {TAB});
    TaggedOn("FULLGAMENAME=", m.fullGameName, TAB, r3, {TAB});
    TaggedOn("GAMEFILE=", m.gameFile, TAB, r4, {TAB});
    TaggedOn("GAMEHOST=", m.gameHost, TAB, r5, {TAB});
    TaggedNumberOn("GAMEPORT=", m.gamePort, TAB, r6, {TAB});
    TaggedOn("KEY=", m.key, NL, extra, {NL});
  }

  // ---------------------------------------------------------------------
  // Exactness: for K, A, F and P the accepted lines are exactly the
  // canonical lines

  lemma KExact(s: string)
    requires ParseK(s).Ok?
    ensures s == RenderK(ParseK(s).msg, [])
  {
    TakenIgnoreSplitOne(s, NL);
  }

  lemma AExact(s: string)
    requires ParseA(s).Ok?
    ensures s == RenderA(ParseA(s).msg, [])
  {
    LiteralSplit(s, "A\t");
    var r0 := Literal(s, "A\t").rest;
    TakenIgnoreSplitOne(r0, TAB);
    var r1 := TakenIgnore(r0, {TAB}).rest;
    LiteralSplit(r1, "KEY\t");
    var r2 := Literal(r1, "KEY\t").rest;
    TakenIgnoreSplitOne(r2, TAB);
    TakenIgnoreSplitOne(TakenIgnore(r2, {TAB}).rest, NL);
  }

  lemma FExact(s: string)
    requires ParseF(s).Ok?
    ensures s == RenderF(ParseF(s).msg, [])
  {
    LiteralSplit(s, "F\t");
    TakenIgnoreSplitOne(Literal(s, "F\t").rest, NL);
  }

  lemma PExact(s: string)
    requires ParseP(s).Ok?
    ensures s == RenderP(ParseP(s).msg, [])
  {
    LiteralSplit(s, "P\t");
    var r0 := Literal(s, "P\t").rest;
    TakenIgnoreSplitOne(r0, TAB);
    var r1 := TakenIgnore(r0, {TAB}).rest;
    TakenIgnoreSplitOne(r1, TAB);
    var r2 := TakenIgnore(r1, {TAB}).rest;
    TakenIgnoreSplitOne(r2, TAB);
    var r3 := TakenIgnore(r2, {TAB}).rest;
    TakenIgnoreSplitOne(r3, TAB);
    var r4 := TakenIgnore(r3, {TAB}).rest;
    TakenIgnoreSplitOne(r4, TAB);
    TakenIgnoreSplitOne(TakenIgnore(r4, {TAB}).rest, NL);
  }

  // ---------------------------------------------------------------------
  // Lines outside the canonical form that the grammars accept

  /** Pairs written `first <sep> second`, pair `i` ended by `ends[i]`. */
  function PairsEndedBy(ps: seq<(string, string)>, ends: seq<char>, sep: char, tail: string): string
    requires |ends| == |ps|
    decreases |ps|
  {
    if ps == [] then tail
    else Field(ps[0].0, sep, Field(ps[0].1, ends[0], PairsEndedBy(ps[1..], ends[1..], sep, tail)))
  }

  lemma {:induction false} PairsEndedByOn(ps: seq<(string, string)>, ends: seq<char>, sep: char,
                                          first: set<char>, rest: string)
    requires |ends| == |ps| && forall i :: 0 <= i < |ends| ==> ends[i] in WS
    requires PairsAvoid(ps, first) && sep in first
    requires !Pair(rest, first).Done?
    ensures Pairs(PairsEndedBy(ps, ends, sep, rest), first) == (ps, rest)
  {
    if ps != [] {
      PairOn(ps[0].0, ps[0].1, ends[0], PairsEndedBy(ps[1..], ends[1..], sep, rest), first, sep);
      PairsEndedByOn(ps[1..], ends[1..], sep, first, rest);
      assert [ps[0]] + ps[1..] == ps;
    }
  }

  /** Each M pair may be ended by a tab or a newline, whichever way they are
      mixed: a line may end with a tab and have no final newline, and a
      newline may separate two pairs. */
  lemma MAnyPairEndings(ps: seq<(string, string)>, ends: seq<char>)
    requires |ps| >= 1 && PairsAvoid(ps, {TAB})
    requires |ends| == |ps| && forall i :: 0 <= i < |ends| ==> ends[i] in WS
    ensures ParseM("M\t" + PairsEndedBy(ps, ends, TAB, [])) == Ok(M(ps))
  {
    assert !Pair([], {TAB}).Done?;
    PairsEndedByOn(ps, ends, TAB, {TAB}, []);
    LiteralOn("M\t", PairsEndedBy(ps, ends, TAB, []));
  }

  lemma MWithoutFinalNewlineExample()
    ensures ParseM("M\ta\tb\t") == Ok(M([("a", "b")]))
  {
    var ps := [("a", "b")];
    assert ps[1..] == [] && [TAB][1..] == [];
    assert PairsEndedBy(ps, [TAB], TAB, []) == Field("a", TAB, Field("b", TAB, []));
    assert Field("b", TAB, []) == "b\t";
    assert Field("a", TAB, "b\t") == "a\tb\t";
    assert "M\t" + "a\tb\t" == "M\ta\tb\t";
    assert Avoids("a", {TAB}) && Avoids("b", {TAB});
    MAnyPairEndings(ps, [TAB]);
  }

  /** An N line whose protocol is followed by a pipe and then the end of the
      input has no access value. */
  lemma NTrailingBar(env: string, proto: string)
    requires Avoids(env, {BAR}) && Avoids(proto, BAR_NL)
    ensures ParseN("N\t" + Field(env, BAR, Field(proto, BAR, [])))
            == Ok(N(EnvironmentFrom(env), ProtocolFrom(proto), NAccess.None))
  {
    NHeadOn(env, proto, BAR, []);
  }

  /** When the protocol is ended by a newline, the access field is read from
      the following line. */
  lemma NAccessFromNextLine(env: string, proto: string, next: string)
    requires Avoids(env, {BAR}) && Avoids(proto, BAR_NL) && Avoids(next, {NL})
    ensures ParseN("N\t" + Field(env, BAR, Field(proto, NL, Field(next, NL, []))))
            == Ok(N(EnvironmentFrom(env), ProtocolFrom(proto), AccessFrom(Some(next))))
  {
    NHeadOn(env, proto, NL, Field(next, NL, []));
    TakenIgnoreOn(next, NL, [], {NL});
  }

  // ---------------------------------------------------------------------
  // Exactness for M, G, C, N and L: the accepted lines are exactly these
  // shapes, each lemma paired with the one that reads every such line back

  /** A pair at the start of the input is the first of the pairs read. */
  lemma PairsCons(s: string, first: set<char>)
    requires Pair(s, first).Done?
    ensures var st := Pair(s, first);
            Pairs(s, first) == ([st.value] + Pairs(st.rest, first).0, Pairs(st.rest, first).1)
  {
  }

  lemma PairsEndedByCons(p: (string, string), ps: seq<(string, string)>, c: char, ends: seq<char>,
                         sep: char, tail: string)
    requires |ends| == |ps|
    ensures PairsEndedBy([p] + ps, [c] + ends, sep, tail)
            == Field(p.0, sep, Field(p.1, c, PairsEndedBy(ps, ends, sep, tail)))
  {
    assert ([p] + ps)[1..] == ps && ([c] + ends)[1..] == ends;
  }

  /** What `Pair` consumed is its two fields, the separator between them and
      a tab or a newline after them. */
  lemma PairSplit(s: string, sep: char)
    requires Pair(s, {sep}).Done?
    ensures var r := Pair(s, {sep});
            exists c :: c in WS && s == Field(r.value.0, sep, Field(r.value.1, c, r.rest))
  {
    TakenIgnoreSplitOne(s, sep);
    var r0 := TakenIgnore(s, {sep}).rest;
    TakenIgnoreSplit(r0, WS);
  }

  /** What `Pairs` consumed is its pairs, each ended by a tab or a newline. */
  lemma {:induction false} PairsSplit(s: string, sep: char)
    ensures var ps := Pairs(s, {sep}).0;
            exists ends :: |ends| == |ps| && Ends(ends) && s == PairsEndedBy(ps, ends, sep, Pairs(s, {sep}).1)
    decreases |s|
  {
    var st := Pair(s, {sep});
    if st.Done? {
      var p := st.value;
      var r := st.rest;
      var c :| c in WS && s == Field(p.0, sep, Field(p.1, c, r)) by { PairSplit(s, sep); }
      var ps' := Pairs(r, {sep}).0;
      var rest := Pairs(r, {sep}).1;
      var ends' :| |ends'| == |ps'| && Ends(ends') && r == PairsEndedBy(ps', ends', sep, rest)
        by { PairsSplit(r, sep); }
      var ends := [c] + ends';
      assert Pairs(s, {sep}) == ([p] + ps', rest) by { PairsCons(s, {sep}); }
      assert Ends(ends) by { EndsCons(c, ends'); }
      assert s == PairsEndedBy([p] + ps', ends, sep, rest) by { PairsEndedByCons(p, ps', c, ends', sep, rest); }
    } else {
      assert s == PairsEndedBy([], [], sep, s);
    }
  }

  lemma MExact(s: string)
    requires ParseM(s).Ok?
    ensures var ps := ParseM(s).msg.instances;
            exists ends :: |ends| == |ps| && Ends(ends) && s == "M\t" + PairsEndedBy(ps, ends, TAB, [])
  {
    LiteralSplit(s, "M\t");
    PairsSplit(Literal(s, "M\t").rest, TAB);
  }

  /** A G line whose name and model are ended by `nameEnd` and `modelEnd` and
      whose data item `i` is ended by `ends[i]`. */
  function GEndedBy(m: G, nameEnd: char, modelEnd: char, ends: seq<char>): string
    requires |ends| == |m.data|
  {
    "G\t" + Field(m.name, nameEnd, Field(PaymentStatusText(m.model), modelEnd,
                                         "0\t\t" + PairsEndedBy(m.data, ends, EQ, [])))
  }

  lemma GExact(s: string)
    requires ParseG(s).Ok?
    ensures var m := ParseG(s).msg;
            exists ends :: |ends| == |m.data| && Ends(ends) && s == GEndedBy(m, TAB, TAB, ends)
  {
    LiteralSplit(s, "G\t");
    var r0 := Literal(s, "G\t").rest;
    TakenIgnoreSplitOne(r0, TAB);
    var r1 := TakenIgnore(r0, {TAB}).rest;
    TakenIgnoreSplitOne(r1, TAB);
    var r2 := TakenIgnore(r1, {TAB}).rest;
    LiteralSplit(r2, "0\t\t");
    PairsSplit(Literal(r2, "0\t\t").rest, EQ);
  }

  /** Each G data item may be ended by a tab or a newline. */
  lemma GAnyPairEndings(m: G, ends: seq<char>)
    requires Avoids(m.name, {TAB}) && Avoids(PaymentStatusText(m.model), {TAB}) && m.model.Canonical()
    requires |m.data| >= 1 && PairsAvoid(m.data, {EQ})
    requires |ends| == |m.data| && Ends(ends)
    ensures ParseG(GEndedBy(m, TAB, TAB, ends)) == Ok(m)
  {
    var model := PaymentStatusText(m.model);
    var r3 := PairsEndedBy(m.data, ends, EQ, []);
    var r1 := Field(model, TAB, "0\t\t" + r3);
    LiteralOn("G\t", Field(m.name, TAB, r1));
    TakenIgnoreOn(m.name, TAB, r1, {TAB});
    TakenIgnoreOn(model, TAB, "0\t\t" + r3, {TAB});
    LiteralOn("0\t\t", r3);
    assert !Pair([], {EQ}).Done?;
    PairsEndedByOn(m.data, ends, EQ, {EQ}, []);
    PaymentStatusRoundTrip(m.model);
  }

  /** The four C counts spelled `d0` to `d3`, the last ended by `c`, then
      `tail`. */
  function CountsLine(d0: string, d1: string, d2: string, d3: string, c: char, tail: string): string {
    "C\t" + Field(d0, TAB, Field(d1, TAB, Field(d2, TAB, Field(d3, c, tail))))
  }

  /** The four numbers `Counts` reads all succeed when it does. */
  lemma CountsSteps(s: string)
    requires Counts(s).Done?
    ensures Literal(s, "C\t").Done? && var t0 := NumberThen(Literal(s, "C\t").rest, {TAB});
            t0.Done? && var t1 := NumberThen(t0.rest, {TAB});
            t1.Done? && var t2 := NumberThen(t1.rest, {TAB});
            t2.Done? && NumberThen(t2.rest, WS).Done?
  {
    var t := TaggedNumber(s, "C\t", {TAB});
    assert t.Done?;
    assert Literal(s, "C\t").Done?;
    assert t == NumberThen(Literal(s, "C\t").rest, {TAB});
    var t1 := NumberThen(t.rest, {TAB});
    assert t1.Done?;
    var t2 := NumberThen(t1.rest, {TAB});
    assert t2.Done?;
  }

  /** What `Counts` consumed is a spelling of each count, the last ended by a
      tab or a newline. */
  lemma CountsSplit(s: string)
    requires Counts(s).Done?
    ensures var n := Counts(s).value;
            exists d0, d1, d2, d3, c ::
              Spells(d0, n.0) && Spells(d1, n.1) && Spells(d2, n.2) && Spells(d3, n.3) && c in WS
              && s == CountsLine(d0, d1, d2, d3, c, Counts(s).rest)
  {
    CountsSteps(s);
    var r0 := Literal(s, "C\t").rest;
    var t0 := NumberThen(r0, {TAB});
    var t1 := NumberThen(t0.rest, {TAB});
    var t2 := NumberThen(t1.rest, {TAB});
    var t3 := NumberThen(t2.rest, WS);
    assert s == "C\t" + r0 by { LiteralSplit(s, "C\t"); }
    var d0, c0 :| Spells(d0, t0.value) && c0 in {TAB} && r0 == Field(d0, c0, t0.rest)
      by { NumberThenSplit(r0, {TAB}); }
    var d1, c1 :| Spells(d1, t1.value) && c1 in {TAB} && t0.rest == Field(d1, c1, t1.rest)
      by { NumberThenSplit(t0.rest, {TAB}); }
    var d2, c2 :| Spells(d2, t2.value) && c2 in {TAB} && t1.rest == Field(d2, c2, t2.rest)
      by { NumberThenSplit(t1.rest, {TAB}); }
    var d3, c :| Spells(d3, t3.value) && c in WS && t2.rest == Field(d3, c, t3.rest)
      by { NumberThenSplit(t2.rest, WS); }
    assert s == CountsLine(d0, d1, d2, d3, c, t3.rest);
    CountsSpelledOn(d0, d1, d2, d3, c, t3.rest, (t0.value, t1.value, t2.value, t3.value));
  }

  /** Any spelling of the four counts is read back. */
  lemma CountsSpelledOn(d0: string, d1: string, d2: string, d3: string, c: char, rest: string,
                        n: (U64, U64, U64, U64))
    requires Spells(d0, n.0) && Spells(d1, n.1) && Spells(d2, n.2) && Spells(d3, n.3) && c in WS
    ensures Counts(CountsLine(d0, d1, d2, d3, c, rest)) == Done(n, rest)
  {
    var r3 := Field(d3, c, rest);
    var r2 := Field(d2, TAB, r3);
    var r1 := Field(d1, TAB, r2);
    LiteralOn("C\t", Field(d0, TAB, r1));
    NumberThenSpelledOn(d0, n.0, TAB, r1, {TAB});
    NumberThenSpelledOn(d1, n.1, TAB, r2, {TAB});
    NumberThenSpelledOn(d2, n.2, TAB, r3, {TAB});
    NumberThenSpelledOn(d3, n.3, c, rest, WS);
  }

  lemma CExact(s: string)
    requires ParseC(s).Ok?
    ensures var m := ParseC(s).msg;
            exists d0, d1, d2, d3, c, ends ::
              Spells(d0, m.numCharacters) && Spells(d1, m.maxCharacters) && Spells(d2, m.n0)
              && Spells(d3, m.n1) && c in WS && |ends| == |m.characters| && Ends(ends)
              && s == CountsLine(d0, d1, d2, d3, c, PairsEndedBy(m.characters, ends, TAB, []))
  {
    CountsSplit(s);
    PairsSplit(Counts(s).rest, TAB);
  }

  /** A C line is read back whatever the spelling of its counts and whichever
      of tab and newline ends the last count and each pair. */
  lemma CAnySpelling(m: C, d0: string, d1: string, d2: string, d3: string, c: char, ends: seq<char>)
    requires PairsAvoid(m.characters, {TAB})
    requires Spells(d0, m.numCharacters) && Spells(d1, m.maxCharacters) && Spells(d2, m.n0)
    requires Spells(d3, m.n1) && c in WS
    requires |ends| == |m.characters| && Ends(ends)
    ensures ParseC(CountsLine(d0, d1, d2, d3, c, PairsEndedBy(m.characters, ends, TAB, []))) == Ok(m)
  {
    CountsSpelledOn(d0, d1, d2, d3, c, PairsEndedBy(m.characters, ends, TAB, []),
                    (m.numCharacters, m.maxCharacters, m.n0, m.n1));
    assert !Pair([], {TAB}).Done?;
    PairsEndedByOn(m.characters, ends, TAB, {TAB}, []);
  }

  /** An N line whose protocol is ended by `c`; the access, when present, is
      the line after it. */
  function NEndedBy(m: N, c: char): string {
    "N\t" + Field(EnvironmentText(m.environment), BAR, Field(ProtocolText(m.protocol), c,
      match AccessText(m.access)
      case None => []
      case Some(t) => Field(t, NL, [])))
  }

  /** The tail after the protocol of an accepted N line is empty or one
      further line. */
  lemma NTailSplit(r: string)
    requires OptionalLine(r).1 == []
    ensures r == match OptionalLine(r).0 case None => [] case Some(t) => Field(t, NL, [])
  {
    if !Avoids(r, {NL}) {
      TakenIgnoreSplitOne(r, NL);
    }
  }

  lemma NExact(s: string)
    requires ParseN(s).Ok?
    ensures s == NEndedBy(ParseN(s).msg, BAR) || s == NEndedBy(ParseN(s).msg, NL)
  {
    var r0 := Literal(s, "N\t").rest;
    var e := TakenIgnore(r0, {BAR});
    var p := TakenIgnore(e.rest, BAR_NL);
    var a := OptionalLine(p.rest);
    assert e.Done? && p.Done? && a.1 == []
           && ParseN(s).msg == N(EnvironmentFrom(e.value), ProtocolFrom(p.value), AccessFrom(a.0));
    assert s == "N\t" + r0 by { LiteralSplit(s, "N\t"); }
    assert r0 == Field(e.value, BAR, e.rest) by { TakenIgnoreSplitOne(r0, BAR); }
    var c :| c in BAR_NL && e.rest == Field(p.value, c, p.rest) by { TakenIgnoreSplit(e.rest, BAR_NL); }
    NTailSplit(p.rest);
    assert s == NEndedBy(ParseN(s).msg, c);
  }

  /** An N line is read back whichever of `|` and the newline ends its
      protocol: with no access, `|` then the end of input; with an access,
      a newline moves it to the following line. */
  lemma NAnyEnding(m: N, c: char)
    requires m.environment.Canonical() && Avoids(EnvironmentText(m.environment), {BAR})
    requires m.protocol.Canonical() && Avoids(ProtocolText(m.protocol), BAR_NL)
    requires m.access.Canonical() && (m.access.Other? ==> Avoids(m.access.text, {NL}))
    requires c in BAR_NL
    ensures ParseN(NEndedBy(m, c)) == Ok(m)
  {
    EnvironmentRoundTrip(m.environment);
    ProtocolRoundTrip(m.protocol);
    AccessRoundTrip(m.access);
    var env := EnvironmentText(m.environment);
    var proto := ProtocolText(m.protocol);
    match m.access
    case None =>
      NHeadOn(env, proto, c, []);
    case Trial =>
      assert Avoids("TRIAL", {NL});
      NHeadOn(env, proto, c, Field("TRIAL", NL, []));
      TakenIgnoreOn("TRIAL", NL, [], {NL});
    case Other(t) =>
      NHeadOn(env, proto, c, Field(t, NL, []));
      TakenIgnoreOn(t, NL, [], {NL});
  }

  /** An L line with its two numbers spelled `up` and `port`. */
  function LSpelled(m: L, up: string, port: string): string {
    "L\tOK\tUPPORT=" + Field(up, TAB,
    "GAME=" + Field(m.game, TAB,
    "GAMECODE=" + Field(m.gameCode, TAB,
    "FULLGAMENAME=" + Field(m.fullGameName, TAB,
    "GAMEFILE=" + Field(m.gameFile, TAB,
    "GAMEHOST=" + Field(m.gameHost, TAB,
    "GAMEPORT=" + Field(port, TAB,
    "KEY=" + Field(m.key, NL, []))))))))
  }

  /** What `Tagged` consumed is the tag, the value and its terminator. */
  lemma TaggedSplit(s: string, tag: string, c: char)
    requires Tagged(s, tag, {c}).Done?
    ensures s == tag + Field(Tagged(s, tag, {c}).value, c, Tagged(s, tag, {c}).rest)
  {
    LiteralSplit(s, tag);
    TakenIgnoreSplitOne(Literal(s, tag).rest, c);
  }

  /** What `TaggedNumber` consumed is the tag, a spelling of the number and
      its terminator. */
  lemma TaggedNumberSplit(s: string, tag: string, c: char)
    requires TaggedNumber(s, tag, {c}).Done?
    ensures var t := TaggedNumber(s, tag, {c});
            exists ds :: Spells(ds, t.value) && s == tag + Field(ds, c, t.rest)
  {
    LiteralSplit(s, tag);
    NumberThenSplit(Literal(s, tag).rest, {c});
  }

  /** The eight fields `LRaw` read, one after the other. */
  lemma LSteps(s: string)
    requires LRaw(s).Done?
    ensures var a0 := TaggedNumber(s, "L\tOK\tUPPORT=", {TAB});
            a0.Done? && var a1 := Tagged(a0.rest, "GAME=", {TAB});
            a1.Done? && var a2 := Tagged(a1.rest, "GAMECODE=", {TAB});
            a2.Done? && var a3 := Tagged(a2.rest, "FULLGAMENAME=", {TAB});
            a3.Done? && var a4 := Tagged(a3.rest, "GAMEFILE=", {TAB});
            a4.Done? && var a5 := Tagged(a4.rest, "GAMEHOST=", {TAB});
            a5.Done? && var a6 := TaggedNumber(a5.rest, "GAMEPORT=", {TAB});
            a6.Done? && var a7 := Tagged(a6.rest, "KEY=", {NL});
            a7.Done? && LRaw(s) == Done(L(a0.value, a1.value, a2.value, a3.value, a4.value, a5.value,
                                          a6.value, a7.value), a7.rest)
  {
    var a0 := TaggedNumber(s, "L\tOK\tUPPORT=", {TAB});
    assert a0.Done?;
    var a1 := Tagged(a0.rest, "GAME=", {TAB});
    assert a1.Done?;
    var a2 := Tagged(a1.rest, "GAMECODE=", {TAB});
    assert a2.Done?;
    var a3 := Tagged(a2.rest, "FULLGAMENAME=", {TAB});
    assert a3.Done?;
    var a4 := Tagged(a3.rest, "GAMEFILE=", {TAB});
    assert a4.Done?;
    var a5 := Tagged(a4.rest, "GAMEHOST=", {TAB});
    assert a5.Done?;
    var a6 := TaggedNumber(a5.rest, "GAMEPORT=", {TAB});
    assert a6.Done?;
  }

  lemma LExact(s: string)
    requires ParseL(s).Ok?
    ensures var m := ParseL(s).msg;
            exists up, port :: Spells(up, m.upport) && Spells(port, m.gamePort) && s == LSpelled(m, up, port)
  {
    LSteps(s);
    var a0 := TaggedNumber(s, "L\tOK\tUPPORT=", {TAB});
    var a1 := Tagged(a0.rest, "GAME=", {TAB});
    var a2 := Tagged(a1.rest, "GAMECODE=", {TAB});
    var a3 := Tagged(a2.rest, "FULLGAMENAME=", {TAB});
    var a4 := Tagged(a3.rest, "GAMEFILE=", {TAB});
    var a5 := Tagged(a4.rest, "GAMEHOST=", {TAB});
    var a6 := TaggedNumber(a5.rest, "GAMEPORT=", {TAB});
    var a7 := Tagged(a6.rest, "KEY=", {NL});
    var up :| Spells(up, a0.value) && s == "L\tOK\tUPPORT=" + Field(up, TAB, a0.rest)
      by { TaggedNumberSplit(s, "L\tOK\tUPPORT=", TAB); }
    assert a0.rest == "GAME=" + Field(a1.value, TAB, a1.rest) by { TaggedSplit(a0.rest, "GAME=", TAB); }
    assert a1.rest == "GAMECODE=" + Field(a2.value, TAB, a2.rest) by { TaggedSplit(a1.rest, "GAMECODE=", TAB); }
    assert a2.rest == "FULLGAMENAME=" + Field(a3.value, TAB, a3.rest)
      by { TaggedSplit(a2.rest, "FULLGAMENAME=", TAB); }
    assert a3.rest == "GAMEFILE=" + Field(a4.value, TAB, a4.rest) by { TaggedSplit(a3.rest, "GAMEFILE=", TAB); }
    assert a4.rest == "GAMEHOST=" + Field(a5.value, TAB, a5.rest) by { TaggedSplit(a4.rest, "GAMEHOST=", TAB); }
    var port :| Spells(port, a6.value) && a5.rest == "GAMEPORT=" + Field(port, TAB, a6.rest)
      by { TaggedNumberSplit(a5.rest, "GAMEPORT=", TAB); }
    assert a6.rest == "KEY=" + Field(a7.value, NL, a7.rest) by { TaggedSplit(a6.rest, "KEY=", NL); }
    assert s == LSpelled(ParseL(s).msg, up, port);
  }

  /** An L line is read back whatever the spelling of its two numbers. */
  lemma LAnySpelling(m: L, up: string, port: string)
    requires Avoids(m.game, {TAB}) && Avoids(m.gameCode, {TAB}) && Avoids(m.fullGameName, {TAB})
    requires Avoids(m.gameFile, {TAB}) && Avoids(m.gameHost, {TAB}) && Avoids(m.key, {NL})
    requires Spells(up, m.upport) && Spells(port, m.gamePort)
    ensures ParseL(LSpelled(m, up, port)) == Ok(m)
  {
    var r6 := "KEY=" + Field(m.key, NL, []);
    var r5 := "GAMEPORT=" + Field(port, TAB, r6);
    var r4 := "GAMEHOST=" + Field(m.gameHost, TAB, r5);
    var r3 := "GAMEFILE=" + Field(m.gameFile, TAB, r4);
    var r2 := "FULLGAMENAME=" + Field(m.fullGameName, TAB, r3);
    var r1 := "GAMECODE=" + Field(m.gameCode, TAB, r2);
    var r0 := "GAME=" + Field(m.game, TAB, r1);
    LiteralOn("L\tOK\tUPPORT=", Field(up, TAB, r0));
    NumberThenSpelledOn(up, m.upport, TAB, r0, {TAB});
    TaggedOn("GAME=", m.game, TAB, r1, {TAB});
    TaggedOn("GAMECODE=", m.gameCode, TAB, r2, {TAB});
    TaggedOn("FULLGAMENAME=", m.fullGameName, TAB, r3, {TAB});
    TaggedOn("GAMEFILE=", m.gameFile, TAB, r4, {TAB});
    TaggedOn("GAMEHOST=", m.gameHost, TAB, r5, {TAB});
    LiteralOn("GAMEPORT=", Field(port, TAB, r6));
    NumberThenSpelledOn(port, m.gamePort, TAB, r6, {TAB});
    TaggedOn("KEY=", m.key, NL, [], {NL});
  }

  // ---------------------------------------------------------------------
  // Panics of `number()` in C and L

  /** An empty first count (the text after "C\t" does not start with a
      digit) panics instead of failing. */
  lemma CMissingCountPanics(rest: string)
    requires StopsDigits(rest)
    ensures ParseC("C\t" + rest) == Panicked
  {
    LiteralOn("C\t", rest);
  }

  /** A first count above u64::MAX panics, however it is spelled. */
  lemma COverflowPanics(ds: string, rest: string)
    requires |ds| > 0 && AllDigits(ds) && DecimalValue(ds) > U64_MAX && StopsDigits(rest)
    ensures ParseC("C\t" + (ds + rest)) == Panicked
  {
    LiteralOn("C\t", ds + rest);
    NumberOverflowPanics(ds, rest);
  }

  lemma LMissingUpportPanics(rest: string)
    requires StopsDigits(rest)
    ensures ParseL("L\tOK\tUPPORT=" + rest) == Panicked
  {
    LiteralOn("L\tOK\tUPPORT=", rest);
  }

  /** An upport above u64::MAX panics, however it is spelled. */
  lemma LOverflowPanics(ds: string, rest: string)
    requires |ds| > 0 && AllDigits(ds) && DecimalValue(ds) > U64_MAX && StopsDigits(rest)
    ensures ParseL("L\tOK\tUPPORT=" + (ds + rest)) == Panicked
  {
    LiteralOn("L\tOK\tUPPORT=", ds + rest);
    NumberOverflowPanics(ds, rest);
  }

  /** C counts written with a leading zero are accepted, so C lines are not
      only the canonical ones. */
  lemma CLeadingZero(m: C)
    requires PairsAvoid(m.characters, {TAB})
    ensures ParseC("C\t" + (['0'] + RenderC(m, [])[2..])) == Ok(m)
  {
    var r4 := RenderPairs(m.characters, TAB, []);
    var c := if m.characters == [] then NL else TAB;
    var r3 := Field(Decimal(m.n1), c, r4);
    var r2 := Field(Decimal(m.n0), TAB, r3);
    var r1 := Field(Decimal(m.maxCharacters), TAB, r2);
    var body := Field(Decimal(m.numCharacters), TAB, r1);
    assert RenderC(m, [])[2..] == body;
    LiteralOn("C\t", ['0'] + body);
    NumberLeadingZero(m.numCharacters, [TAB] + r1);
    OneOfOn(TAB, r1, {TAB});
    NumberThenOn(m.maxCharacters, TAB, r2, {TAB});
    NumberThenOn(m.n0, TAB, r3, {TAB});
    NumberThenOn(m.n1, c, r4, WS);
    PairsOn(m.characters, TAB, {TAB}, []);
  }
}
