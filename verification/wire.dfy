/** Shared vocabulary of the eAccess line codec: parser results, delimiter
    characters, fixed literals and unsigned decimal numbers. Both parser
    backends (chumsky in lib.rs and nom in nom.rs) are built from these. */
module Wire {

  /** The result of running one parser on a prefix of the input: the value
      and the input left over, a recoverable parse failure, or a panic (the
      source's `parse().unwrap()` on a digit run that is not a valid u64). */
  datatype Step<+T> = Done(value: T, rest: string) | Fail | Panic {
    predicate IsFailure() { !Done? }
    function PropagateFailure<U>(): Step<U>
      requires !Done?
    {
      if Fail? then Fail else Panic
    }
    function Extract(): (T, string)
      requires Done?
    {
      (value, rest)
    }
  }

  datatype Option<+T> = None | Some(value: T)

  /** The result of `Message::parse`: a message, the single error kind, or a
      panic that never returns to the caller. */
  datatype Outcome<+T> = Ok(msg: T) | ParseError | Panicked

  const TAB: char := '\t'
  const NL: char := '\n'
  const BAR: char := '|'
  const EQ: char := '='
  /** Tab or newline: the terminators of fields that may end a line. */
  const WS: set<char> := {TAB, NL}
  /** Pipe or newline: the terminators of the N message's protocol field. */
  const BAR_NL: set<char> := {BAR, NL}

  const U64_MAX: nat := 0xFFFF_FFFF_FFFF_FFFF
  type U64 = n: nat | n <= U64_MAX

  /** No character of `s` is one of `stop`. */
  predicate Avoids(s: string, stop: set<char>) {
    forall i :: 0 <= i < |s| ==> s[i] !in stop
  }

  /** Every character of `ends` is a tab or a newline: the terminators a
      sequence of fields was written with. */
  predicate Ends(ends: seq<char>) {
    forall i :: 0 <= i < |ends| ==> ends[i] in WS
  }

  /** A tab or a newline in front of terminators keeps them terminators. */
  lemma EndsCons(c: char, ends: seq<char>)
    requires c in WS && Ends(ends)
    ensures Ends([c] + ends)
  {
    forall i | 0 <= i < |ends| + 1 ensures ([c] + ends)[i] in WS {
      if i > 0 { assert ([c] + ends)[i] == ends[i - 1]; }
    }
  }

  /** Terminators with some dropped from the front are still terminators. */
  lemma EndsDrop(ends: seq<char>, k: nat)
    requires Ends(ends) && k <= |ends|
    ensures Ends(ends[k..])
  {
    forall i | 0 <= i < |ends| - k ensures ends[k..][i] in WS {
      assert ends[k..][i] == ends[i + k];
    }
  }

  /** A field followed by the one character that ends it, then the rest of
      the line. Grammars read lines of this shape left to right. */
  function Field(v: string, c: char, tail: string): string {
    v + ([c] + tail)
  }

  /** `Message::parse` (lib.rs) and `all_consuming` (nom.rs): the grammar must
      have consumed the whole line. */
  function Finish<T>(st: Step<T>): (r: Outcome<T>)
    ensures r.Ok? <==> st.Done? && st.rest == []
    ensures r.Ok? ==> r.msg == st.value
    ensures r.Panicked? <==> st.Panic?
  {
    match st
    case Done(v, rest) => if rest == [] then Ok(v) else ParseError
    case Fail => ParseError
    case Panic => Panicked
  }

  /** chumsky `just(lit)` and nom `tag(lit)`: the input must begin with `lit`. */
  function Literal(s: string, lit: string): Step<string> {
    if |lit| <= |s| && s[..|lit|] == lit then Done(lit, s[|lit|..]) else Fail
  }

  lemma LiteralOn(lit: string, rest: string)
    ensures Literal(lit + rest, lit) == Done(lit, rest)
  {
    assert (lit + rest)[..|lit|] == lit;
    assert (lit + rest)[|lit|..] == rest;
  }

  lemma LiteralSplit(s: string, lit: string)
    requires Literal(s, lit).Done?
    ensures s == lit + Literal(s, lit).rest
  {
    assert s == s[..|lit|] + s[|lit|..];
  }

  /** chumsky `one_of(set)` / `just(c)` and nom `one_of(set)` / `tag(c)` on one
      character: consume one character from `stop`. */
  function OneOf(s: string, stop: set<char>): Step<char> {
    if |s| > 0 && s[0] in stop then Done(s[0], s[1..]) else Fail
  }

  lemma OneOfOn(c: char, rest: string, stop: set<char>)
    requires c in stop
    ensures OneOf([c] + rest, stop) == Done(c, rest)
  {
    assert ([c] + rest)[1..] == rest;
  }

  // ---------------------------------------------------------------------
  // Decimal numbers

  predicate IsDigit(c: char) { '0' <= c <= '9' }

  predicate AllDigits(s: string) {
    forall i :: 0 <= i < |s| ==> IsDigit(s[i])
  }

  /** The input does not continue with a digit, so a digit run stops here. */
  predicate StopsDigits(s: string) {
    s == [] || !IsDigit(s[0])
  }

  function DigitValue(c: char): nat
    requires IsDigit(c)
  {
    (c as int - '0' as int) as nat
  }

  function DigitChar(d: nat): (c: char)
    requires d < 10
    ensures IsDigit(c) && DigitValue(c) == d
  {
    ('0' as int + d) as char
  }

  /** Base-10 value of a run of ASCII digits, most significant first. */
  function DecimalValue(ds: string): nat
    requires AllDigits(ds)
    decreases |ds|
  {
    if ds == [] then 0
    else DecimalValue(ds[..|ds| - 1]) * 10 + DigitValue(ds[|ds| - 1])
  }

  /** Reference rendering of a natural number in base 10, no leading zeros. */
  function Decimal(n: nat): (ds: string)
    ensures |ds| > 0 && AllDigits(ds)
  {
    if n < 10 then [DigitChar(n)] else Decimal(n / 10) + [DigitChar(n % 10)]
  }

  lemma {:induction false} DecimalRoundTrip(n: nat)
    ensures DecimalValue(Decimal(n)) == n
  {
    if n >= 10 {
      var ds := Decimal(n);
      assert ds[..|ds| - 1] == Decimal(n / 10);
      DecimalRoundTrip(n / 10);
    }
  }

  /** Length of the run of ASCII digits at the start of `s`. */
  function DigitRun(s: string): (n: nat)
    ensures n <= |s| && AllDigits(s[..n]) && StopsDigits(s[n..])
  {
    if s == [] || !IsDigit(s[0]) then 0
    else
      var n := 1 + DigitRun(s[1..]);
      assert s[..n] == [s[0]] + s[1..][..n - 1];
      assert s[n..] == s[1..][n - 1..];
      n
  }

  lemma {:induction false} DigitRunOn(ds: string, rest: string)
    requires AllDigits(ds) && StopsDigits(rest)
    ensures DigitRun(ds + rest) == |ds|
  {
    if ds != [] {
      assert (ds + rest)[1..] == ds[1..] + rest;
      DigitRunOn(ds[1..], rest);
    } else {
      assert ds + rest == rest;
    }
  }

  /** `number()` in both backends: the run of ASCII digits (possibly empty) is
      handed to `u64::from_str(..).unwrap()`, which panics on an empty run
      and on a value above u64::MAX. The parser itself never fails. */
  function Number(s: string): (r: Step<U64>)
    ensures !r.Fail?
    ensures StopsDigits(s) ==> r.Panic?
    ensures r.Done? ==> |r.rest| < |s| && StopsDigits(r.rest)
  {
    var n := DigitRun(s);
    if n == 0 || DecimalValue(s[..n]) > U64_MAX then Panic
    else Done(DecimalValue(s[..n]) as U64, s[n..])
  }

  /** Rendering a u64 in decimal and reading it back gives the same number,
      and the text after it is left alone. */
  lemma NumberRoundTrip(n: U64, rest: string)
    requires StopsDigits(rest)
    ensures Number(Decimal(n) + rest) == Done(n, rest)
  {
    var s := Decimal(n) + rest;
    DigitRunOn(Decimal(n), rest);
    assert s[..|Decimal(n)|] == Decimal(n);
    assert s[|Decimal(n)|..] == rest;
    DecimalRoundTrip(n);
  }

  /** `ds` is a non-empty digit run whose value is `n`: any spelling that
      `number()` reads as `n`, leading zeros included. */
  predicate Spells(ds: string, n: nat) {
    |ds| > 0 && AllDigits(ds) && DecimalValue(ds) == n
  }

  /** Every spelling of a u64 is read back, and the text after it is left
      alone. */
  lemma NumberOn(ds: string, n: U64, rest: string)
    requires Spells(ds, n) && StopsDigits(rest)
    ensures Number(ds + rest) == Done(n, rest)
  {
    var s := ds + rest;
    DigitRunOn(ds, rest);
    assert s[..|ds|] == ds;
    assert s[|ds|..] == rest;
  }

  /** What `number()` consumed is a spelling of its value and nothing else. */
  lemma NumberSplit(s: string)
    requires Number(s).Done?
    ensures Spells(s[..DigitRun(s)], Number(s).value)
    ensures s == s[..DigitRun(s)] + Number(s).rest
  {
  }

  /** A digit run whose value exceeds u64::MAX makes `number()` panic, however
      it is spelled. */
  lemma NumberOverflowPanics(ds: string, rest: string)
    requires |ds| > 0 && AllDigits(ds) && DecimalValue(ds) > U64_MAX && StopsDigits(rest)
    ensures Number(ds + rest) == Panic
  {
    var s := ds + rest;
    DigitRunOn(ds, rest);
    assert s[..|ds|] == ds;
  }

  /** A leading zero does not change the value of a digit run. */
  lemma {:induction false} DecimalValueLeadingZero(ds: string)
    requires AllDigits(ds)
    ensures DecimalValue(['0'] + ds) == DecimalValue(ds)
  {
    if ds != [] {
      var zs := ['0'] + ds;
      assert zs[..|zs| - 1] == ['0'] + ds[..|ds| - 1];
      DecimalValueLeadingZero(ds[..|ds| - 1]);
    }
  }

  /** `number()` accepts leading zeros: "0" followed by the decimal text of
      `n` reads as `n`, so numbers have more than one accepted spelling. */
  lemma NumberLeadingZero(n: U64, rest: string)
    requires StopsDigits(rest)
    ensures Number(['0'] + (Decimal(n) + rest)) == Done(n, rest)
  {
    var ds := ['0'] + Decimal(n);
    var s := ['0'] + (Decimal(n) + rest);
    assert s == ds + rest;
    DigitRunOn(ds, rest);
    assert s[..|ds|] == ds;
    assert s[|ds|..] == rest;
    DecimalValueLeadingZero(Decimal(n));
    DecimalRoundTrip(n);
  }
}
