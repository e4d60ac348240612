/** Concrete lines of the handshake and what each backend reads from them,
    obtained from the general round-trip lemmas. */
module Examples {
  import opened Wire
  import opened Enums
  import opened Messages
  import LibGrammar
  import NomGrammar

  lemma KExample()
    ensures LibGrammar.ParseK("abcdefgh\n") == Ok(K("abcdefgh"))
    ensures NomGrammar.ParseK("abcdefgh\n") == Ok(K("abcdefgh"))
  {
    var m := K("abcdefgh");
    assert RenderK(m, []) == "abcdefgh\n";
    LibGrammar.KRoundTrip(m, []);
    NomGrammar.KRoundTrip(m, []);
  }

  /** Without its newline the K line is refused by both backends. */
  lemma KMissingNewline()
    ensures LibGrammar.ParseK("abcdefgh") == ParseError
    ensures NomGrammar.ParseK("abcdefgh") == ParseError
  {
    assert Avoids("abcdefgh", WS);
    NomGrammar.TerminatedIsTakenIgnore("abcdefgh", WS);
  }

  /** The chumsky K grammar has no tag, so an A line is read as a key; nom
      stops at the tab and refuses the line. */
  lemma KReadsOtherTags()
    ensures LibGrammar.ParseK("A\tx\n") == Ok(K("A\tx"))
    ensures NomGrammar.ParseK("A\tx\n") == ParseError
  {
    LibGrammar.KRoundTrip(K("A\tx"), []);
    assert RenderK(K("A\tx"), []) == "A\tx\n";
    NomGrammar.WordOn("A", TAB, "x\n");
    assert Field("A", TAB, "x\n") == "A\tx\n";
  }

  // MLastPair, MPairs, MLine, NTrialLine, NTrialText, NNoAccessLine, CPairs,
  // CLine and CText state no property of the protocol: each spells out one
  // concrete rendered line in pieces, only so that the example lemmas built
  // on them stay cheap to verify.

  lemma MLastPair()
    ensures RenderPairs([("DR", "DragonRealms")], TAB, []) == "DR\tDragonRealms\n"
  {
    assert Field("DragonRealms", NL, []) == "DragonRealms\n";
  }

  lemma MPairs()
    ensures RenderPairs([("GSIV", "GemStone IV"), ("DR", "DragonRealms")], TAB, [])
            == "GSIV\tGemStone IV\tDR\tDragonRealms\n"
  {
    var ps := [("GSIV", "GemStone IV"), ("DR", "DragonRealms")];
    assert ps[1..] == [("DR", "DragonRealms")];
    MLastPair();
    var last := "DR\tDragonRealms\n";
    assert Field("GemStone IV", TAB, last) == "GemStone IV\t" + last;
    assert Field("GSIV", TAB, "GemStone IV\t" + last) == "GSIV\tGemStone IV\t" + last;
    assert "GSIV\tGemStone IV\t" + last == "GSIV\tGemStone IV\tDR\tDragonRealms\n";
  }

  lemma MLine()
    ensures RenderM(M([("GSIV", "GemStone IV"), ("DR", "DragonRealms")]), [])
            == "M\tGSIV\tGemStone IV\tDR\tDragonRealms\n"
  {
    MPairs();
    assert "M\t" + "GSIV\tGemStone IV\t" == "M\tGSIV\tGemStone IV\t";
    assert "M\tGSIV\tGemStone IV\t" + "DR\tDragonRealms\n" == "M\tGSIV\tGemStone IV\tDR\tDragonRealms\n";
  }

  lemma MExample()
    ensures LibGrammar.ParseM("M\tGSIV\tGemStone IV\tDR\tDragonRealms\n")
            == Ok(M([("GSIV", "GemStone IV"), ("DR", "DragonRealms")]))
    ensures NomGrammar.ParseM("M\tGSIV\tGemStone IV\tDR\tDragonRealms\n")
            == Ok(M([("GSIV", "GemStone IV"), ("DR", "DragonRealms")]))
  {
    var m := M([("GSIV", "GemStone IV"), ("DR", "DragonRealms")]);
    MLine();
    assert Avoids("GSIV", WS) && Avoids("GemStone IV", WS) && Avoids("DR", WS) && Avoids("DragonRealms", WS);
    LibGrammar.MRoundTrip(m, []);
    NomGrammar.MRoundTrip(m, []);
  }

  /** Rendering helper for the N examples (see the note above MLastPair). */
  lemma NTrialLine()
    ensures RenderN(N(Production, Storm, Trial), []) == "N\tPRODUCTION|STORM|TRIAL\n"
  {
    assert AccessText(Trial) == Some("TRIAL");
    assert RenderN(N(Production, Storm, Trial), [])
           == "N\t" + Field("PRODUCTION", BAR, Field("STORM", BAR, Field("TRIAL", NL, [])));
    NTrialText();
  }

  lemma NTrialText()
    ensures "N\t" + Field("PRODUCTION", BAR, Field("STORM", BAR, Field("TRIAL", NL, [])))
            == "N\tPRODUCTION|STORM|TRIAL\n"
  {
    assert Field("TRIAL", NL, []) == "TRIAL\n";
    assert Field("STORM", BAR, "TRIAL\n") == "STORM|TRIAL\n";
    assert Field("PRODUCTION", BAR, "STORM|TRIAL\n") == "PRODUCTION|STORM|TRIAL\n";
  }

  lemma NNoAccessLine()
    ensures RenderN(N(Production, Storm, NAccess.None), []) == "N\tPRODUCTION|STORM\n"
  {
    assert Field("STORM", NL, []) == "STORM\n";
    assert Field("PRODUCTION", BAR, "STORM\n") == "PRODUCTION|STORM\n";
  }

  lemma NExample()
    ensures LibGrammar.ParseN("N\tPRODUCTION|STORM|TRIAL\n") == Ok(N(Production, Storm, Trial))
    ensures NomGrammar.ParseN("N\tPRODUCTION|STORM|TRIAL\n") == Ok(N(Production, Storm, Trial))
  {
    NTrialLine();
    LibGrammar.NRoundTrip(N(Production, Storm, Trial), []);
    NomGrammar.NRoundTrip(N(Production, Storm, Trial), []);
  }

  lemma NNoAccessExample()
    ensures LibGrammar.ParseN("N\tPRODUCTION|STORM\n") == Ok(N(Production, Storm, NAccess.None))
    ensures NomGrammar.ParseN("N\tPRODUCTION|STORM\n") == Ok(N(Production, Storm, NAccess.None))
  {
    NNoAccessLine();
    LibGrammar.NRoundTrip(N(Production, Storm, NAccess.None), []);
    NomGrammar.NRoundTrip(N(Production, Storm, NAccess.None), []);
  }

  lemma FExample()
    ensures LibGrammar.ParseF("F\tNEED_BILL\n") == Ok(F(NeedBill))
    ensures NomGrammar.ParseF("F\tNEED_BILL\n") == Ok(F(NeedBill))
    ensures LibGrammar.ParseF("F\tNEED_BILL\nX") == ParseError
  {
    assert RenderF(F(NeedBill), []) == "F\tNEED_BILL\n";
    assert RenderF(F(NeedBill), "X") == "F\tNEED_BILL\nX";
    LibGrammar.FRoundTrip(F(NeedBill), []);
    LibGrammar.FRoundTrip(F(NeedBill), "X");
    NomGrammar.FRoundTrip(F(NeedBill), []);
  }

  /** Rendering helper for the C examples (see the note above MLastPair). */
  lemma CPairs()
    ensures RenderPairs([("1", "Bob"), ("2", "Alice")], TAB, []) == "1\tBob\t2\tAlice\n"
  {
    var ps := [("1", "Bob"), ("2", "Alice")];
    assert ps[1..] == [("2", "Alice")] && ps[1..][1..] == [];
    assert RenderPairs(ps, TAB, []) == Field("1", TAB, Field("Bob", TAB, Field("2", TAB, Field("Alice", NL, []))));
    assert Field("Alice", NL, []) == "Alice\n";
    assert Field("2", TAB, "Alice\n") == "2\tAlice\n";
    assert Field("Bob", TAB, "2\tAlice\n") == "Bob\t2\tAlice\n";
    assert Field("1", TAB, "Bob\t2\tAlice\n") == "1\tBob\t2\tAlice\n";
  }

  lemma CLine()
    ensures RenderC(C(2, 2, 0, 0, [("1", "Bob"), ("2", "Alice")]), [])
            == "C\t2\t2\t0\t0\t1\tBob\t2\tAlice\n"
  {
    CPairs();
    assert Decimal(2) == "2" && Decimal(0) == "0";
    CText();
  }

  lemma CText()
    ensures "C\t" + Field("2", TAB, Field("2", TAB, Field("0", TAB, Field("0", TAB, "1\tBob\t2\tAlice\n"))))
            == "C\t2\t2\t0\t0\t1\tBob\t2\tAlice\n"
  {
    var ps := "1\tBob\t2\tAlice\n";
    assert Field("0", TAB, ps) == "0\t" + ps;
    assert Field("0", TAB, "0\t" + ps) == "0\t0\t" + ps;
    assert Field("2", TAB, "0\t0\t" + ps) == "2\t0\t0\t" + ps;
    assert Field("2", TAB, "2\t0\t0\t" + ps) == "2\t2\t0\t0\t" + ps;
    assert "C\t" + ("2\t2\t0\t0\t" + ps) == "C\t2\t2\t0\t0\t" + ps;
  }

  lemma CExample()
    ensures LibGrammar.ParseC("C\t2\t2\t0\t0\t1\tBob\t2\tAlice\n")
            == Ok(C(2, 2, 0, 0, [("1", "Bob"), ("2", "Alice")]))
  {
    CLine();
    LibGrammar.CRoundTrip(C(2, 2, 0, 0, [("1", "Bob"), ("2", "Alice")]), []);
  }

  lemma CExampleNom()
    ensures NomGrammar.ParseC("C\t2\t2\t0\t0\t1\tBob\t2\tAlice\n")
            == Ok(C(2, 2, 0, 0, [("1", "Bob"), ("2", "Alice")]))
  {
    CLine();
    NomGrammar.CRoundTrip(C(2, 2, 0, 0, [("1", "Bob"), ("2", "Alice")]), []);
  }

  /** A character list with no characters ends after the fourth number. */
  lemma CEmptyExample()
    ensures LibGrammar.ParseC("C\t0\t5\t0\t0\n") == Ok(C(0, 5, 0, 0, []))
    ensures NomGrammar.ParseC("C\t0\t5\t0\t0\n") == Ok(C(0, 5, 0, 0, []))
  {
    var m := C(0, 5, 0, 0, []);
    assert Decimal(5) == "5" && Decimal(0) == "0";
    assert RenderC(m, []) == "C\t0\t5\t0\t0\n";
    LibGrammar.CRoundTrip(m, []);
    NomGrammar.CRoundTrip(m, []);
  }

  /** An empty count makes `number()` panic in both backends. */
  lemma CEmptyCountExample()
    ensures LibGrammar.ParseC("C\t\t2\t0\t0\n") == Panicked
    ensures NomGrammar.ParseC("C\t\t2\t0\t0\n") == Panicked
  {
    assert "C\t" + "\t2\t0\t0\n" == "C\t\t2\t0\t0\n";
    LibGrammar.CMissingCountPanics("\t2\t0\t0\n");
    NomGrammar.TagNumberTagIsTaggedNumber("C\t\t2\t0\t0\n", "C\t", TAB);
  }
}
