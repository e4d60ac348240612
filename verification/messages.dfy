/** The nine server responses of the eAccess handshake, shared by both parser
    backends, and the canonical wire line of each (a reference definition used
    to state what the parsers accept: fields separated by tabs, repeated pairs
    separated by tabs, the line ended by a newline). */
module Messages {
  import opened Wire
  import opened Enums

  /** K: the per-session hash key. */
  datatype K = K(key: string)
  /** A: login acknowledgement. */
  datatype A = A(account: string, key: string, name: string)
  /** M: the instance list, (node, display name) pairs. */
  datatype M = M(instances: seq<(string, string)>)
  /** N: node information. */
  datatype N = N(environment: NEnvironment, protocol: NProtocol, access: NAccess)
  /** F: payment status. */
  datatype F = F(status: PaymentStatus)
  /** G: general information for an instance. */
  datatype G = G(name: string, model: PaymentStatus, data: seq<(string, string)>)
  /** P: six fields of undocumented meaning, kept as text. */
  datatype P = P(p0: string, p1: string, p2: string, p3: string, p4: string, p5: string)
  /** C: the character list. */
  datatype C = C(numCharacters: U64, maxCharacters: U64, n0: U64, n1: U64,
                 characters: seq<(string, string)>)
  /** L: launch information for the game session. */
  datatype L = L(upport: U64, game: string, gameCode: string, fullGameName: string,
                 gameFile: string, gameHost: string, gamePort: U64, key: string)

  // ---------------------------------------------------------------------
  // Canonical lines. Each `RenderX(m, tail)` is the line that carries `m`,
  // followed by `tail` (the empty sequence for exactly one line).

  /** Pairs written `first <sep> second`, each pair ended by a tab except the
      last, which is ended by a newline. */
  function RenderPairs(ps: seq<(string, string)>, sep: char, tail: string): string
    decreases |ps|
  {
    if ps == [] then tail
    else Field(ps[0].0, sep, Field(ps[0].1, if |ps| == 1 then NL else TAB, RenderPairs(ps[1..], sep, tail)))
  }

  function RenderK(m: K, tail: string): string {
    Field(m.key, NL, tail)
  }

  function RenderA(m: A, tail: string): string {
    "A\t" + Field(m.account, TAB, "KEY\t" + Field(m.key, TAB, Field(m.name, NL, tail)))
  }

  function RenderM(m: M, tail: string): string {
    "M\t" + RenderPairs(m.instances, TAB, tail)
  }

  /** The access segment and its leading pipe are written only when the
      access value stands for a present segment. */
  function RenderN(m: N, tail: string): string {
    "N\t" + Field(EnvironmentText(m.environment), BAR,
      match AccessText(m.access)
      case None => Field(ProtocolText(m.protocol), NL, tail)
      case Some(t) => Field(ProtocolText(m.protocol), BAR, Field(t, NL, tail)))
  }

  function RenderF(m: F, tail: string): string {
    "F\t" + Field(PaymentStatusText(m.status), NL, tail)
  }

  function RenderG(m: G, tail: string): string {
    "G\t" + Field(m.name, TAB, Field(PaymentStatusText(m.model), TAB, "0\t\t" + RenderPairs(m.data, EQ, tail)))
  }

  function RenderP(m: P, tail: string): string {
    "P\t" + Field(m.p0, TAB, Field(m.p1, TAB, Field(m.p2, TAB, Field(m.p3, TAB,
             Field(m.p4, TAB, Field(m.p5, NL, tail))))))
  }

  /** With no characters the fourth number ends the line. */
  function RenderC(m: C, tail: string): string {
    "C\t" + Field(Decimal(m.numCharacters), TAB, Field(Decimal(m.maxCharacters), TAB,
             Field(Decimal(m.n0), TAB, Field(Decimal(m.n1), if m.characters == [] then NL else TAB,
             RenderPairs(m.characters, TAB, tail)))))
  }

  function RenderL(m: L, tail: string): string {
    "L\tOK\tUPPORT=" + Field(Decimal(m.upport), TAB,
    "GAME=" + Field(m.game, TAB,
    "GAMECODE=" + Field(m.gameCode, TAB,
    "FULLGAMENAME=" + Field(m.fullGameName, TAB,
    "GAMEFILE=" + Field(m.gameFile, TAB,
    "GAMEHOST=" + Field(m.gameHost, TAB,
    "GAMEPORT=" + Field(Decimal(m.gamePort), TAB,
    "KEY=" + Field(m.key, NL, tail))))))))
  }
}
