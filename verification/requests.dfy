/** The request lines the client sends (each message type's `out`), and a
    reference reader of request lines used to state what each request
    carries. */
module Requests {
  import opened Wire
  import Enums
  import Hashing

  /** `K::out`, `M::out`, `C::out`: requests without arguments. */
  const K_REQUEST: string := "K\n"
  const M_REQUEST: string := "M\n"
  const C_REQUEST: string := "C\n"

  /** `N::out`, `F::out`, `G::out`, `P::out`: the tag, a tab, the node, a
      newline. The node is written as given. */
  function NodeRequest(tag: char, node: string): string {
    [tag, TAB] + (node + [NL])
  }

  /** `L::out`: the character id and the protocol's wire text. */
  function LRequest(characterId: string, protocol: Enums.NProtocol): string {
    "L\t" + (characterId + ("\t" + (Enums.ProtocolText(protocol) + "\n")))
  }

  /** `A::out`: bytes, because the hashed password need not be text. */
  function ARequest(account: seq<bv8>, hashed: seq<bv8>): seq<bv8> {
    [0x41, 0x09] + (account + ([0x09] + (hashed + [0x0A])))
  }

  // ---------------------------------------------------------------------
  // Reference reader of request lines

  /** Position of the first `x` in `b`, or `|b|` when there is none. */
  function FirstIndex<T(==)>(b: seq<T>, x: T): (i: nat)
    ensures i <= |b| && (forall j :: 0 <= j < i ==> b[j] != x) && (i < |b| ==> b[i] == x)
  {
    if b == [] || b[0] == x then 0 else 1 + FirstIndex(b[1..], x)
  }

  lemma FirstIndexOn<T>(a: seq<T>, x: T, rest: seq<T>)
    requires forall j :: 0 <= j < |a| ==> a[j] != x
    ensures FirstIndex(a + ([x] + rest), x) == |a|
  {
    var s := a + ([x] + rest);
    assert s[|a|] == x;
    assert forall j :: 0 <= j < |a| ==> s[j] == a[j];
  }

  /** The fields of `s` separated by `c` (always at least one). */
  function SplitAt(s: string, c: char): (r: seq<string>)
    ensures |r| >= 1
    ensures forall i :: 0 <= i < |r| ==> Avoids(r[i], {c})
    decreases |s|
  {
    var i := FirstIndex(s, c);
    if i == |s| then [s] else [s[..i]] + SplitAt(s[i + 1..], c)
  }

  /** The fields `fs` written with `c` between each two. */
  function Join(fs: seq<string>, c: char): string
    decreases |fs|
  {
    if fs == [] then []
    else if |fs| == 1 then fs[0]
    else fs[0] + ([c] + Join(fs[1..], c))
  }

  /** Splitting undoes joining when no field holds the separator. */
  lemma {:induction false} SplitJoin(fs: seq<string>, c: char)
    requires |fs| >= 1
    requires forall i :: 0 <= i < |fs| ==> Avoids(fs[i], {c})
    ensures SplitAt(Join(fs, c), c) == fs
    decreases |fs|
  {
    if |fs| == 1 {
      assert fs[0][..|fs[0]|] == fs[0];
    } else {
      var rest := Join(fs[1..], c);
      var s := fs[0] + ([c] + rest);
      assert Join(fs, c) == s;
      assert Avoids(fs[0], {c});
      FirstIndexOn(fs[0], c, rest);
      assert s[..|fs[0]|] == fs[0];
      assert s[|fs[0]| + 1..] == rest;
      assert SplitAt(s, c) == [fs[0]] + SplitAt(rest, c);
      SplitJoin(fs[1..], c);
      assert [fs[0]] + fs[1..] == fs;
    }
  }

  /** Joining undoes splitting. */
  lemma {:induction false} JoinSplit(s: string, c: char)
    ensures Join(SplitAt(s, c), c) == s
    decreases |s|
  {
    var i := FirstIndex(s, c);
    if i < |s| {
      assert s == s[..i] + ([c] + s[i + 1..]);
      var t := SplitAt(s[i + 1..], c);
      assert SplitAt(s, c) == [s[..i]] + t;
      assert ([s[..i]] + t)[1..] == t;
      JoinSplit(s[i + 1..], c);
    }
  }

  /** A request line: text without newlines, then one newline; its fields
      are separated by tabs. */
  function ReadRequest(line: string): (r: Option<seq<string>>)
    ensures r.Some? <==> |line| > 0 && line[|line| - 1] == NL && Avoids(line[..|line| - 1], {NL})
    ensures r.Some? ==> Join(r.value, TAB) + [NL] == line
  {
    if |line| > 0 && line[|line| - 1] == NL && Avoids(line[..|line| - 1], {NL}) then
      JoinSplit(line[..|line| - 1], TAB);
      Some(SplitAt(line[..|line| - 1], TAB))
    else None
  }

  /** A request without arguments carries only its tag. */
  lemma TagOnlyRequestRead(tag: char)
    requires tag !in WS
    ensures ReadRequest([tag, NL]) == Some([[tag]])
  {
    assert [tag, NL][..1] == [tag];
    assert SplitAt([tag], TAB) == [[tag]];
  }

  lemma FixedRequestsRead()
    ensures ReadRequest(K_REQUEST) == Some(["K"])
    ensures ReadRequest(M_REQUEST) == Some(["M"])
    ensures ReadRequest(C_REQUEST) == Some(["C"])
  {
    TagOnlyRequestRead('K');
    TagOnlyRequestRead('M');
    TagOnlyRequestRead('C');
  }

  /** A node request carries exactly its tag and the node, provided the node
      holds no tab or newline. */
  lemma NodeRequestRead(tag: char, node: string)
    requires tag !in WS && Avoids(node, WS)
    ensures ReadRequest(NodeRequest(tag, node)) == Some([[tag], node])
  {
    var line := NodeRequest(tag, node);
    assert Join([[tag], node], TAB) == [tag] + ([TAB] + node);
    assert line == Join([[tag], node], TAB) + [NL];
    assert line[..|line| - 1] == Join([[tag], node], TAB);
    SplitJoin([[tag], node], TAB);
  }

  /** A line of three tab-separated fields reads back as those fields. */
  lemma ThreeFieldsRead(f0: string, f1: string, f2: string)
    requires Avoids(f0, WS) && Avoids(f1, WS) && Avoids(f2, WS)
    ensures ReadRequest(f0 + ([TAB] + (f1 + ([TAB] + (f2 + [NL]))))) == Some([f0, f1, f2])
  {
    var fs := [f0, f1, f2];
    var line := f0 + ([TAB] + (f1 + ([TAB] + (f2 + [NL]))));
    assert fs[1..] == [f1, f2];
    assert [f1, f2][1..] == [f2];
    assert Join([f1, f2], TAB) == f1 + ([TAB] + f2);
    assert line == Join(fs, TAB) + [NL];
    assert line[..|line| - 1] == Join(fs, TAB);
    SplitJoin(fs, TAB);
  }

  /** An L request carries the character id and the protocol text, provided
      neither holds a tab or newline. */
  lemma LRequestRead(characterId: string, protocol: Enums.NProtocol)
    requires Avoids(characterId, WS) && Avoids(Enums.ProtocolText(protocol), WS)
    ensures ReadRequest(LRequest(characterId, protocol))
            == Some(["L", characterId, Enums.ProtocolText(protocol)])
  {
    var p := Enums.ProtocolText(protocol);
    assert LRequest(characterId, protocol) == "L" + ([TAB] + (characterId + ([TAB] + (p + [NL]))));
    ThreeFieldsRead("L", characterId, p);
  }

  lemma LRequestExample()
    ensures LRequest("117", Enums.Storm) == "L\t117\tSTORM\n"
  {
  }

  // ---------------------------------------------------------------------
  // Reading the login request back

  /** Reference reader of an A request: the account is everything up to the
      first tab after "A\t", the hashed password everything after it up to
      the final newline. */
  function ReadLogin(b: seq<bv8>): Option<(seq<bv8>, seq<bv8>)> {
    if |b| >= 3 && b[..2] == [0x41, 0x09] && b[|b| - 1] == 0x0A then
      var body := b[2..|b| - 1];
      var i := FirstIndex(body, 0x09);
      if i < |body| then Some((body[..i], body[i + 1..])) else None
    else None
  }

  /** The login request carries the account and the hashed password, even
      when the hashed bytes include tabs or newlines, provided the account
      holds no tab. */
  lemma ReadLoginOn(account: seq<bv8>, hashed: seq<bv8>)
    requires forall j :: 0 <= j < |account| ==> account[j] != 0x09
    ensures ReadLogin(ARequest(account, hashed)) == Some((account, hashed))
  {
    var b := ARequest(account, hashed);
    var body := b[2..|b| - 1];
    assert b[..2] == [0x41, 0x09];
    assert body == account + ([0x09] + hashed);
    FirstIndexOn(account, 0x09, hashed);
    assert body[..|account|] == account;
    assert body[|account| + 1..] == hashed;
  }

  /** End to end: the server, knowing the key, recovers the password from
      the login request when the key is at least as long as the password. */
  lemma LoginCarriesPassword(account: seq<bv8>, password: seq<bv8>, key: seq<bv8>)
    requires forall j :: 0 <= j < |account| ==> account[j] != 0x09
    requires |password| <= |key|
    ensures var r := ReadLogin(ARequest(account, Hashing.HashPassword(password, key)));
            r.Some? && r.value.0 == account && Hashing.HashPassword(r.value.1, key) == password
  {
    ReadLoginOn(account, Hashing.HashPassword(password, key));
    Hashing.HashPasswordInvolution(password, key);
  }
}
