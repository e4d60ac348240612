# rogue-eaccess in Dafny

`rogue-eaccess` is a stateless codec for the eAccess (SGE) login handshake
that Simutronics games use. The client sends one request line per step: K (hash
key), A (login), M (instance list), N (node information), F (payment status),
G (general information), P, C (character list) and L (launch). The server
answers each request with one tab-delimited response line. The crate contains:

- `hash_password`, the byte-wise `((p - 0x20) xor k) + 0x20` obfuscation of
  the password under the key from the K response;
- four open enumerations (`NEnvironment`, `NProtocol`, `NAccess`,
  `PaymentStatus`), each with a catch-all `Other(text)`;
- the request encoders (`out` on each message);
- the nine response grammars. `src/lib.rs` writes them with chumsky, built on
  the primitives `taken_ignore` and `number`. `src/nom.rs` is an alternative
  backend written with nom, built on `word` and `number`. The crate does not
  compile `src/nom.rs`.

Both files are pure, so the model is datatypes, functions and lemmas:

| module | file | models |
|---|---|---|
| `Wire` | wire.dfy | Parser results. `Step` is one grammar step: done with a value and the rest, fail, or panic. `Outcome` is the result of `Message::parse`. Also `just`/`tag`, `one_of`, `number` and full consumption. |
| `Hashing` | hashing.dfy | `hash_password`, on `bv8`. |
| `Enums` | enums.dfy | The four enumerations, their `From` conversions and their wire text. |
| `Messages` | messages.dfy | The nine response datatypes. For each, `RenderX(m, tail)` is a reference definition of the canonical line carrying `m`, followed by `tail`. |
| `LibGrammar` | lib_grammar.dfy | The chumsky grammars, `taken_ignore`, and `Message::parse` for each message. |
| `NomGrammar` | nom_grammar.dfy | The nom grammars, `word`, `take_until`, `is_not`, and `all_consuming` for each message. Lemmas relate the two backends. |
| `Requests` | requests.dfy | The `out` encoders, and a reference reader of request lines that states what each request carries. |
| `Examples` | examples.dfy | Concrete response lines and what each backend reads from them. |

`number()` calls `str::parse::<u64>().unwrap()` on the digit run. The run may
be empty or exceed `u64::MAX`, and then the code panics instead of reporting a
parse error. The model keeps this as a third outcome, `Panicked`, separate
from `ParseError`.

Several behaviours follow the code, although a reader of the protocol might
expect otherwise:

- The chumsky K grammar has no tag. It accepts any line, "A\tx\n" included.
- The chumsky M, G and C grammars accept a tab or a newline after every pair.
  So a line whose last pair ends with a tab and no newline is accepted.
- Numbers may have leading zeros.
- A missing or overflowing number panics. It is not a parse error.
- The chumsky N grammar reads the access value from the next line when the
  protocol is ended by a newline and another line follows.
- `hash_password` of 0x41 under key 0x01 is 0x40: `((0x41 - 0x20) ^ 0x01) + 0x20`.
- The nom grammars end every word with either a tab or a newline (`word`,
  `src/nom.rs` lines 435-439). So the nom K, A, M, G, P and C grammars accept a
  tab in place of the final newline, and a newline in place of any tab that
  separates two words.
- The nom N grammar refuses an empty protocol, which the chumsky one accepts.

The two files define the same `hash_password`, enumerations and encoders
(`src/nom.rs` lines 22-27, 105-157, 211-222 and the `out` functions). The
`Hashing`, `Enums` and `Requests` modules model both copies.

## Model

Each `ParseX` row also covers the grammar body `XRaw` it wraps with the
end-of-input check. A function without a contract of its own, such as an
encoder or a primitive, is stated by the lemma rows that name it.

| member | source | states |
|---|---|---|
| Wire.Finish | rogue-eaccess/src/lib.rs:402-407 | `parse` succeeds exactly when the grammar succeeds with no input left, and then yields the grammar's value. A panic in the grammar is a panic of `parse`. |
| Wire.LiteralOn | rogue-eaccess/src/lib.rs:57 | `just(lit)` (`Wire.Literal`) on a line that starts with `lit` consumes exactly `lit`. |
| Wire.LiteralSplit | rogue-eaccess/src/lib.rs:77 | When `just(lit)` succeeds, the input is `lit` followed by the rest it returns. |
| Wire.OneOfOn | rogue-eaccess/src/lib.rs:327 | `one_of(stop)` (`Wire.OneOf`) consumes one character of `stop`. |
| Wire.Number | rogue-eaccess/src/lib.rs:410-415 | `number` never fails as a parse. It panics when no digit leads the input. On success it consumed at least one digit, and no digit follows. |
| Wire.NumberRoundTrip | rogue-eaccess/src/lib.rs:410-415 | The decimal text of any `u64` followed by a non-digit reads back as that number, and the rest is left. |
| Wire.NumberOn | rogue-eaccess/src/lib.rs:410-415 | Every spelling of a `u64`, leading zeros included, followed by a non-digit reads back as that number, and the rest is left. |
| Wire.NumberSplit | rogue-eaccess/src/lib.rs:410-415 | When `number` succeeds, the digit run it consumed spells the value it returns, and the input is that run followed by the rest. |
| Wire.DecimalRoundTrip | rogue-eaccess/src/lib.rs:414 | The value of the decimal text of `n` is `n`. |
| Wire.NumberOverflowPanics | rogue-eaccess/src/lib.rs:414 | A digit run of any spelling, leading zeros included, whose value exceeds `u64::MAX` and that no digit follows, makes `number` panic. |
| Wire.DecimalValueLeadingZero | rogue-eaccess/src/lib.rs:414 | A leading zero does not change the value of a digit run. |
| Wire.NumberLeadingZero | rogue-eaccess/src/nom.rs:441-445 | `number` accepts a leading zero and reads the same value. |
| Hashing.HashByteInvolution | rogue-eaccess/src/lib.rs:17 | Hashing one byte (`Hashing.HashByte`) twice with the same key byte gives back the byte, with wrap-around mod 256. |
| Hashing.HashPassword | rogue-eaccess/src/lib.rs:13-18 | The output has min(\|password\|, \|key\|) bytes, and byte i is `((p[i] - 0x20) xor k[i]) + 0x20` mod 256. |
| Hashing.HashPasswordTwice | rogue-eaccess/src/nom.rs:22-27 | Hashing the hash with the same key gives back the password, cut to the key's length. |
| Hashing.HashPasswordInvolution | rogue-eaccess/src/lib.rs:17 | When the key is at least as long as the password, hashing twice gives back the password. |
| Hashing.HashPasswordDropsExcess | rogue-eaccess/src/lib.rs:17 | Password bytes beyond the key's length do not affect the output. |
| Hashing.HashPasswordExample | rogue-eaccess/src/lib.rs:13-18 | Exact output bytes for four inputs, including both wrap-arounds. |
| Enums.EnvironmentFrom | rogue-eaccess/src/lib.rs:96-104 | The conversion keeps the text. It gives `Other` exactly for text other than PRODUCTION and DEVELOPMENT. |
| Enums.EnvironmentRoundTrip | rogue-eaccess/src/lib.rs:96-104 | Converting the text of a variant gives back that variant. |
| Enums.ProtocolText | rogue-eaccess/src/lib.rs:113-120 | The text is "STORM" exactly for `Storm` and `Other("STORM")`. |
| Enums.ProtocolFrom | rogue-eaccess/src/lib.rs:122-129 | The text of `NProtocol::from(s)` is `s`. The result is `Other` exactly when `s` is not "STORM". |
| Enums.ProtocolRoundTrip | rogue-eaccess/src/lib.rs:113-129 | `from` after the reverse map gives back every canonical variant. |
| Enums.AccessFrom | rogue-eaccess/src/lib.rs:140-148 | An absent value gives `None`, "TRIAL" gives `Trial`, and other present text gives `Other` with that text. |
| Enums.AccessRoundTrip | rogue-eaccess/src/lib.rs:140-148 | Converting the optional text of a variant gives back that variant. |
| Enums.PaymentStatusFrom | rogue-eaccess/src/lib.rs:197-208 | The conversion keeps the text. It gives `Other` exactly for text outside the five named statuses. |
| Enums.PaymentStatusRoundTrip | rogue-eaccess/src/lib.rs:197-208 | Converting the text of a variant gives back that variant. |
| LibGrammar.TakenIgnore | rogue-eaccess/src/lib.rs:417-428 | `taken_ignore` never panics. It fails exactly when no terminator occurs. On success the value holds no terminator, and exactly one terminator is consumed. |
| LibGrammar.TakenIgnoreSplit | rogue-eaccess/src/lib.rs:417-428 | On success the input is the value, one terminator, and the rest. |
| LibGrammar.TakenIgnoreOn | rogue-eaccess/src/lib.rs:417-428 | A token free of terminators, followed by a terminator, is read as exactly that token. |
| LibGrammar.Pair | rogue-eaccess/src/lib.rs:79 | One M or C pair: the first field holds no tab, the second holds neither a tab nor a newline, and at least two characters are consumed. |
| LibGrammar.Pairs | rogue-eaccess/src/lib.rs:79-82 | `repeated()` stops only where no further pair matches. It keeps every pair's field constraints, and it yields no pairs exactly when it consumed nothing. |
| LibGrammar.PairsOn | rogue-eaccess/src/lib.rs:328-331 | The canonical text of a pair sequence is read back as that sequence. |
| LibGrammar.PairsEndedByOn | rogue-eaccess/src/lib.rs:79 | Pairs read back whichever of tab and newline ends each pair. |
| LibGrammar.NumberThenOn | rogue-eaccess/src/lib.rs:325 | `number().then_ignore(c)` (`LibGrammar.NumberThen`) reads a decimal followed by `c`. |
| LibGrammar.NumberThenSpelledOn | rogue-eaccess/src/lib.rs:325 | Any spelling of a number, followed by a stop character, reads back as that number. |
| LibGrammar.NumberThenSplit | rogue-eaccess/src/lib.rs:325 | On success the input is a spelling of the value, one stop character, and the rest. |
| LibGrammar.Tagged | rogue-eaccess/src/lib.rs:374 | A labelled text field of L holds no terminator. |
| LibGrammar.TaggedOn | rogue-eaccess/src/lib.rs:374-378 | A label followed by a token and its terminator reads back the token. |
| LibGrammar.TaggedNumberOn | rogue-eaccess/src/lib.rs:373 | A label followed by a decimal and its terminator reads back the number (`LibGrammar.TaggedNumber`). |
| LibGrammar.TaggedSplit | rogue-eaccess/src/lib.rs:374-380 | On success the input is the label, the value, its terminator, and the rest. |
| LibGrammar.TaggedNumberSplit | rogue-eaccess/src/lib.rs:373 | On success the input is the label, a spelling of the number, its terminator, and the rest. |
| LibGrammar.PairSplit | rogue-eaccess/src/lib.rs:79 | A pair consumed the first field, the separator, the second field, and one tab or newline. |
| LibGrammar.PairsSplit | rogue-eaccess/src/lib.rs:79-82 | What `repeated()` consumed is exactly its pairs, each ended by a tab or a newline, followed by the rest. |
| LibGrammar.CountsSplit | rogue-eaccess/src/lib.rs:324-327 | On success the four counts consumed "C\t", a spelling of each count, a tab after each of the first three, and a tab or newline after the fourth. |
| LibGrammar.CountsSpelledOn | rogue-eaccess/src/lib.rs:324-327 | Any spellings of four counts, laid out that way, read back as those counts. |
| LibGrammar.OptionalLine | rogue-eaccess/src/lib.rs:168 | `taken_ignore(just('\n')).or_not()` gives nothing exactly when no newline follows, and then consumes nothing. |
| LibGrammar.CRaw | rogue-eaccess/src/lib.rs:322-340 | The characters of a C line hold no tab in their first field and neither a tab nor a newline in their second. |
| LibGrammar.LRaw | rogue-eaccess/src/lib.rs:370-397 | The text fields of an L line hold no tab, and the key holds no newline. |
| LibGrammar.ParseK | rogue-eaccess/src/lib.rs:32-36 | K never panics, and the key holds no newline. |
| LibGrammar.ParseA | rogue-eaccess/src/lib.rs:54-63 | A never panics. The account and key hold no tab, and the name holds no newline. |
| LibGrammar.ParseM | rogue-eaccess/src/lib.rs:75-85 | M never panics. It has at least one instance, and the fields avoid their delimiters. |
| LibGrammar.ParseN | rogue-eaccess/src/lib.rs:163-176 | N never panics. The environment holds no pipe, the protocol holds neither a pipe nor a newline, and an `Other` access holds no newline. |
| LibGrammar.ParseF | rogue-eaccess/src/lib.rs:219-225 | F never panics, and the status text holds no newline. |
| LibGrammar.ParseG | rogue-eaccess/src/lib.rs:243-259 | G never panics. It has at least one data item, the name and model hold no tab, and the item keys hold no `=`. |
| LibGrammar.ParseP | rogue-eaccess/src/lib.rs:278-297 | P never panics. Five fields hold no tab, and the sixth holds no newline. |
| LibGrammar.ParseC | rogue-eaccess/src/lib.rs:321-341 | The characters read from a C line avoid their delimiters. |
| LibGrammar.ParseL | rogue-eaccess/src/lib.rs:370-397 | The L text fields avoid their terminators. |
| LibGrammar.KRoundTrip | rogue-eaccess/src/lib.rs:32-36 | Any K whose key holds no newline is read back from its line. The line with anything appended is a parse error. |
| LibGrammar.ARoundTrip | rogue-eaccess/src/lib.rs:54-63 | A reads back its line exactly, and refuses trailing input. |
| LibGrammar.MRoundTrip | rogue-eaccess/src/lib.rs:75-85 | M reads back its line exactly, and refuses trailing input that does not start another pair. |
| LibGrammar.NHeadOn | rogue-eaccess/src/lib.rs:165-168 | The environment is the text up to the first pipe. The protocol is ended by a pipe or a newline. The access is whatever line follows. |
| LibGrammar.NRoundTrip | rogue-eaccess/src/lib.rs:163-176 | N reads back its line exactly, with and without an access segment. It refuses trailing input, provided that, when there is no access, the trailing input holds no newline (such input would be read as the access). |
| LibGrammar.NAccessOn | rogue-eaccess/src/lib.rs:168 | A present access segment is read up to its newline. |
| LibGrammar.FRoundTrip | rogue-eaccess/src/lib.rs:219-225 | F reads back its line exactly, and refuses trailing input. |
| LibGrammar.GRoundTrip | rogue-eaccess/src/lib.rs:243-259 | G reads back its line exactly, including the literal "0\t\t", and refuses trailing input that does not start another data item. |
| LibGrammar.PRoundTrip | rogue-eaccess/src/lib.rs:278-297 | P reads back its six fields exactly, and refuses trailing input. |
| LibGrammar.CRoundTrip | rogue-eaccess/src/lib.rs:321-341 | C reads back its four numbers and its characters, none included, and refuses trailing input that does not start another pair. |
| LibGrammar.LRoundTrip | rogue-eaccess/src/lib.rs:370-397 | L reads back all eight labelled fields in their fixed order, and refuses trailing input. |
| LibGrammar.KExact | rogue-eaccess/src/lib.rs:32-36 | Every line that K accepts is exactly the canonical line of what it read. |
| LibGrammar.AExact | rogue-eaccess/src/lib.rs:54-63 | Every line that A accepts is exactly the canonical line of what it read. |
| LibGrammar.FExact | rogue-eaccess/src/lib.rs:219-225 | Every line that F accepts is exactly the canonical line of what it read. |
| LibGrammar.PExact | rogue-eaccess/src/lib.rs:278-297 | Every line that P accepts is exactly the canonical line of what it read. |
| LibGrammar.MExact | rogue-eaccess/src/lib.rs:75-85 | Every line that M accepts is "M\t" followed by its pairs, each ended by a tab or newline. `MAnyPairEndings` is the converse. |
| LibGrammar.GExact | rogue-eaccess/src/lib.rs:243-259 | Every line that G accepts is the canonical line of what it read, except that each data item is ended by a tab or a newline. |
| LibGrammar.GAnyPairEndings | rogue-eaccess/src/lib.rs:243-259 | G reads back its line whichever of tab and newline ends each data item. |
| LibGrammar.CExact | rogue-eaccess/src/lib.rs:321-341 | Every line that C accepts is the canonical line of what it read, up to the spelling of the four counts, the tab or newline after the fourth, and the tab or newline after each pair. |
| LibGrammar.CAnySpelling | rogue-eaccess/src/lib.rs:321-341 | C reads back every such line, with any spelling of the counts and any choice of endings. |
| LibGrammar.NExact | rogue-eaccess/src/lib.rs:163-176 | Every line that N accepts is the canonical line of what it read, with the protocol ended by a pipe or a newline. |
| LibGrammar.NAnyEnding | rogue-eaccess/src/lib.rs:163-176 | N reads back its line whichever of pipe and newline ends the protocol. |
| LibGrammar.LExact | rogue-eaccess/src/lib.rs:370-397 | Every line that L accepts is the canonical line of what it read, up to the spelling of its two numbers. |
| LibGrammar.LAnySpelling | rogue-eaccess/src/lib.rs:370-397 | L reads back its line with any spelling of its two numbers. |
| LibGrammar.MAnyPairEndings | rogue-eaccess/src/lib.rs:77-83 | M accepts any choice of tab or newline after each pair, including a tab at the very end. |
| LibGrammar.MWithoutFinalNewlineExample | rogue-eaccess/src/lib.rs:79 | "M\ta\tb\t", with no newline, is accepted. |
| LibGrammar.NTrailingBar | rogue-eaccess/src/lib.rs:167-168 | A protocol ended by a pipe, with nothing after it, gives no access. |
| LibGrammar.NAccessFromNextLine | rogue-eaccess/src/lib.rs:167-168 | A protocol ended by a newline and followed by another line takes its access from that line. |
| LibGrammar.CMissingCountPanics | rogue-eaccess/src/lib.rs:324 | A C line with no digits after the tag panics. |
| LibGrammar.COverflowPanics | rogue-eaccess/src/lib.rs:324 | A first C count above `u64::MAX`, however it is spelled, panics. |
| LibGrammar.LMissingUpportPanics | rogue-eaccess/src/lib.rs:373 | An L line with no digits after "UPPORT=" panics. |
| LibGrammar.LOverflowPanics | rogue-eaccess/src/lib.rs:373 | An UPPORT above `u64::MAX`, however it is spelled, panics. |
| LibGrammar.CLeadingZero | rogue-eaccess/src/lib.rs:324 | A leading zero on the first count does not change what C reads. |
| NomGrammar.Span | rogue-eaccess/src/nom.rs:176 | The run of characters before the first stop character. |
| NomGrammar.IsNot | rogue-eaccess/src/nom.rs:176 | `is_not(stop)` never panics. It fails exactly on empty input or a stop character first. Its value is non-empty and holds no stop character. |
| NomGrammar.TakeUntil | rogue-eaccess/src/nom.rs:175 | `take_until(c)` never panics. Its value holds no `c`, and `c` follows it. |
| NomGrammar.TakeUntilFails | rogue-eaccess/src/nom.rs:175 | `take_until(c)` fails exactly when `c` does not occur. |
| NomGrammar.UntilTag | rogue-eaccess/src/nom.rs:175 | `take_until(c)` then `tag(c)` never panics, and its value holds no `c`. |
| NomGrammar.Terminated | rogue-eaccess/src/nom.rs:436 | `terminated(is_not(stop), one_of(stop))` never panics, and its value is non-empty and holds no stop character. |
| NomGrammar.TagUntilTag | rogue-eaccess/src/nom.rs:397-403 | A labelled text field of L never panics, and holds no terminator. |
| NomGrammar.Word | rogue-eaccess/src/nom.rs:435-439 | `word` never panics. What it reads is non-empty and holds neither a tab nor a newline, and it consumes input. |
| NomGrammar.SpanTakenIgnore | rogue-eaccess/src/nom.rs:175 | Taking up to the first terminator and consuming it is the chumsky `taken_ignore`. |
| NomGrammar.UntilTagIsTakenIgnore | rogue-eaccess/src/nom.rs:235 | `take_until(c)` then `tag(c)` is `taken_ignore(just(c))`. |
| NomGrammar.TerminatedIsTakenIgnore | rogue-eaccess/src/nom.rs:436 | `terminated(is_not(stop), one_of(stop))` is `taken_ignore(one_of(stop))`, except that an empty token fails. |
| NomGrammar.UntilTagOn | rogue-eaccess/src/nom.rs:175 | A token followed by its terminator is read exactly. |
| NomGrammar.TerminatedOn | rogue-eaccess/src/nom.rs:176 | A non-empty token followed by one stop character is read exactly. |
| NomGrammar.WordOn | rogue-eaccess/src/nom.rs:435-439 | A word followed by a tab or newline is read exactly. |
| NomGrammar.WordSplit | rogue-eaccess/src/nom.rs:435-439 | On success the input is the word, one tab or newline, and the rest. |
| NomGrammar.NumberTagIsNumberThen | rogue-eaccess/src/nom.rs:345 | `terminated(number, tag(c))` (`NomGrammar.NumberTag`) is the chumsky `number().then_ignore(just(c))`. |
| NomGrammar.TagNumberTagIsTaggedNumber | rogue-eaccess/src/nom.rs:396 | `delimited(tag(t), number, tag(c))` (`NomGrammar.TagNumberTag`) is the chumsky labelled number. |
| NomGrammar.TagUntilTagIsTagged | rogue-eaccess/src/nom.rs:397 | `delimited(tag(t), take_until(c), tag(c))` is the chumsky labelled text field. |
| NomGrammar.WordPair | rogue-eaccess/src/nom.rs:90 | `pair(word, word)` reads two words and consumes at least two characters. |
| NomGrammar.WordPairs | rogue-eaccess/src/nom.rs:348 | `many0(pair(word, word))` stops only where no further pair matches, and yields only words. |
| NomGrammar.WordPairOn | rogue-eaccess/src/nom.rs:90 | Two words with their terminators are read as a pair. |
| NomGrammar.WordPairsOn | rogue-eaccess/src/nom.rs:90 | The canonical text of a sequence of word pairs is read back. |
| NomGrammar.DataItem | rogue-eaccess/src/nom.rs:264-267 | One G data item: a key free of `=`, a value that is a word, and at least two characters consumed. |
| NomGrammar.DataItems | rogue-eaccess/src/nom.rs:264-267 | `many1` stops only where no further item matches, and keeps every item's constraints. |
| NomGrammar.DataItemOn | rogue-eaccess/src/nom.rs:265-266 | A key, `=`, a word and a terminator are read as one item. |
| NomGrammar.DataItemsOn | rogue-eaccess/src/nom.rs:264-267 | The canonical text of a sequence of data items is read back. |
| NomGrammar.WordPairsSplit | rogue-eaccess/src/nom.rs:90 | What `many0(pair(word, word))` consumed is exactly its pairs, each word ended by a tab or a newline, followed by the rest. |
| NomGrammar.WordPairsEndedByOn | rogue-eaccess/src/nom.rs:90 | Word pairs read back whichever of tab and newline ends each word. |
| NomGrammar.DataItemsSplit | rogue-eaccess/src/nom.rs:264-267 | What `many1` consumed is exactly its data items, each ended by a tab or a newline, followed by the rest. |
| NomGrammar.DataItemsEndedByOn | rogue-eaccess/src/nom.rs:264-267 | Data items read back whichever of tab and newline ends each. |
| NomGrammar.CountsSameAsLib | rogue-eaccess/src/nom.rs:344-347 | The nom C counts read what the chumsky ones read, panics included. |
| NomGrammar.ARaw | rogue-eaccess/src/nom.rs:65-76 | The account, key and name read from an A line are words. |
| NomGrammar.OptUntilTag | rogue-eaccess/src/nom.rs:177 | `opt(...)` gives nothing exactly when no newline follows, and then consumes nothing. |
| NomGrammar.PRaw | rogue-eaccess/src/nom.rs:300-317 | The six P fields are words. |
| NomGrammar.CRaw | rogue-eaccess/src/nom.rs:341-363 | The C characters are pairs of words. |
| NomGrammar.ParseK | rogue-eaccess/src/nom.rs:41-47 | K never panics, and the key is a word. |
| NomGrammar.ParseA | rogue-eaccess/src/nom.rs:65-76 | A never panics, and its three fields are words. |
| NomGrammar.ParseM | rogue-eaccess/src/nom.rs:88-94 | M never panics, and has at least one pair of words. |
| NomGrammar.ParseN | rogue-eaccess/src/nom.rs:172-190 | N never panics, and the protocol is never empty. |
| NomGrammar.ParseG | rogue-eaccess/src/nom.rs:257-281 | G never panics, and has at least one data item. |
| NomGrammar.ParseP | rogue-eaccess/src/nom.rs:300-317 | P never panics, and the six fields it yields are words. The shape of the accepted line is stated by `NomGrammar.PExact`. |
| NomGrammar.ParseC | rogue-eaccess/src/nom.rs:341-363 | The C characters are pairs of words. |
| NomGrammar.ParseF | rogue-eaccess/src/nom.rs:233-239 | F never panics, and the status text holds no newline. |
| NomGrammar.ParseL | rogue-eaccess/src/nom.rs:392-421 | The L text fields avoid their terminators. |
| NomGrammar.KRoundTrip | rogue-eaccess/src/nom.rs:41-47 | K reads back any word key from its line, and refuses trailing input. |
| NomGrammar.ARoundTrip | rogue-eaccess/src/nom.rs:65-76 | A reads back its line exactly, and refuses trailing input. |
| NomGrammar.MRoundTrip | rogue-eaccess/src/nom.rs:88-94 | M reads back its pairs, and refuses trailing input that does not start another pair. |
| NomGrammar.NHeadOn | rogue-eaccess/src/nom.rs:175-177 | The environment runs up to the first pipe. The non-empty protocol is ended by a pipe or a newline. The access is whatever line follows. |
| NomGrammar.NRoundTrip | rogue-eaccess/src/nom.rs:172-190 | N reads back its line exactly when the protocol is non-empty. It refuses trailing input, provided that, when there is no access, the trailing input holds no newline. |
| NomGrammar.NAccessOn | rogue-eaccess/src/nom.rs:177 | A present access segment is read up to its newline. |
| NomGrammar.GRoundTrip | rogue-eaccess/src/nom.rs:257-281 | G reads back its line exactly, and refuses trailing input that does not start another data item. |
| NomGrammar.PRoundTrip | rogue-eaccess/src/nom.rs:300-317 | P reads back its six words, and refuses trailing input. |
| NomGrammar.CRoundTrip | rogue-eaccess/src/nom.rs:341-363 | C reads back its numbers and word pairs, none included, and refuses trailing input that does not start another pair of words. |
| NomGrammar.KExact | rogue-eaccess/src/nom.rs:41-47 | Every line that K accepts is its key followed by exactly one tab or newline. |
| NomGrammar.KAnyEnding | rogue-eaccess/src/nom.rs:41-47 | K reads back a word key ended by either a tab or a newline. |
| NomGrammar.AExact | rogue-eaccess/src/nom.rs:65-76 | Every line that A accepts is "A\t" and its three words, each ended by a tab or a newline. |
| NomGrammar.AAnyEndings | rogue-eaccess/src/nom.rs:65-76 | A reads back its three words whichever of tab and newline ends each. |
| NomGrammar.MExact | rogue-eaccess/src/nom.rs:88-94 | Every line that M accepts is "M\t" and its pairs of words, each word ended by a tab or a newline. |
| NomGrammar.MAnyEndings | rogue-eaccess/src/nom.rs:88-94 | M reads back its pairs whichever of tab and newline ends each word. |
| NomGrammar.GExact | rogue-eaccess/src/nom.rs:257-281 | Every line that G accepts is the canonical line of what it read, except that the name, the model and each data item are ended by a tab or a newline. |
| NomGrammar.GAnyEndings | rogue-eaccess/src/nom.rs:257-281 | G reads back every such line. |
| NomGrammar.PExact | rogue-eaccess/src/nom.rs:300-317 | Every line that P accepts is "P\t" and its six words, each ended by a tab or a newline. |
| NomGrammar.PAnyEndings | rogue-eaccess/src/nom.rs:300-317 | P reads back its six words whichever of tab and newline ends each. |
| NomGrammar.CExact | rogue-eaccess/src/nom.rs:341-363 | Every line that C accepts is the canonical line of what it read, up to the spelling of the counts, the tab or newline after the fourth count, and the tab or newline after each word. |
| NomGrammar.CAnySpelling | rogue-eaccess/src/nom.rs:341-363 | C reads back every such line. |
| NomGrammar.NExact | rogue-eaccess/src/nom.rs:172-190 | Every line that N accepts is the canonical line of what it read, with the protocol ended by a pipe or a newline. |
| NomGrammar.NAnyEnding | rogue-eaccess/src/nom.rs:172-190 | N reads back its line, with a non-empty protocol, whichever of pipe and newline ends the protocol. |
| NomGrammar.FExact | rogue-eaccess/src/nom.rs:233-239 | Every line that F accepts is exactly the canonical line of what it read. |
| NomGrammar.LExact | rogue-eaccess/src/nom.rs:392-421 | Every line that L accepts is the canonical line of what it read, up to the spelling of its two numbers. |
| NomGrammar.LAnySpelling | rogue-eaccess/src/nom.rs:392-421 | L reads back its line with any spelling of its two numbers. |
| NomGrammar.FSameAsLib | rogue-eaccess/src/nom.rs:233-239 | The nom F grammar accepts and rejects exactly what the chumsky one does, with the same result. |
| NomGrammar.LSameAsLib | rogue-eaccess/src/nom.rs:392-421 | The nom L grammar agrees with the chumsky one on every input, panics included. |
| NomGrammar.LRawSameAsLib | rogue-eaccess/src/nom.rs:393-405 | The nom L grammar body agrees with the chumsky one before the end-of-input check. |
| NomGrammar.NSameAsLibUnlessEmptyProtocol | rogue-eaccess/src/nom.rs:176 | The nom N grammar agrees with the chumsky one, except that it refuses an empty protocol. |
| NomGrammar.FRoundTrip | rogue-eaccess/src/nom.rs:233-239 | F reads back its line exactly, and refuses trailing input. |
| NomGrammar.LRoundTrip | rogue-eaccess/src/nom.rs:392-421 | L reads back all eight labelled fields, and refuses trailing input. |
| NomGrammar.KBackendsDisagreeOnTab | rogue-eaccess/src/nom.rs:43 | A key line containing a tab is accepted by chumsky and refused by nom. |
| NomGrammar.KBackendsDisagreeOnMissingNewline | rogue-eaccess/src/nom.rs:436 | A key ended by a tab with no newline is accepted by nom and refused by chumsky. |
| Requests.FixedRequestsRead | rogue-eaccess/src/lib.rs:26-28 | The K, M and C requests are the bare tag and a newline. |
| Requests.TagOnlyRequestRead | rogue-eaccess/src/lib.rs:316-318 | A tag and a newline carry only the tag. |
| Requests.NodeRequestRead | rogue-eaccess/src/lib.rs:158-160 | The N, F, G and P requests (`Requests.NodeRequest`) carry exactly their tag and the node, when the node holds no tab or newline. |
| Requests.LRequestRead | rogue-eaccess/src/lib.rs:365-367 | The L request (`Requests.LRequest`) carries exactly "L", the character id and the protocol text. |
| Requests.LRequestExample | rogue-eaccess/src/lib.rs:365-367 | `L::out("117", Storm)` is "L\t117\tSTORM\n". |
| Requests.ReadLoginOn | rogue-eaccess/src/lib.rs:46-51 | The A request (`Requests.ARequest`) carries the account and the hashed bytes, even when the hashed bytes contain tabs or newlines. |
| Requests.LoginCarriesPassword | rogue-eaccess/src/lib.rs:46-51 | A server that knows the key recovers the password from the A request. |
| Examples.KExample | rogue-eaccess/src/lib.rs:32-36 | "abcdefgh\n" reads as the key "abcdefgh" in both backends. |
| Examples.KMissingNewline | rogue-eaccess/src/lib.rs:34 | Without its newline the K line is refused by both backends. |
| Examples.KReadsOtherTags | rogue-eaccess/src/lib.rs:34 | "A\tx\n" is a K line for chumsky and a parse error for nom. |
| Examples.MExample | rogue-eaccess/src/lib.rs:75-85 | "M\tGSIV\tGemStone IV\tDR\tDragonRealms\n" gives two instances in both backends. |
| Examples.NExample | rogue-eaccess/src/lib.rs:163-176 | "N\tPRODUCTION\|STORM\|TRIAL\n" gives (Production, Storm, Trial) in both backends. |
| Examples.NNoAccessExample | rogue-eaccess/src/nom.rs:172-190 | "N\tPRODUCTION\|STORM\n" gives access `None` in both backends. |
| Examples.FExample | rogue-eaccess/src/lib.rs:219-225 | "F\tNEED_BILL\n" gives `NeedBill`, and one more character is a parse error. |
| Examples.CExample | rogue-eaccess/src/lib.rs:321-341 | "C\t2\t2\t0\t0\t1\tBob\t2\tAlice\n" gives (2, 2, 0, 0, [("1","Bob"), ("2","Alice")]). |
| Examples.CExampleNom | rogue-eaccess/src/nom.rs:341-363 | The nom C grammar reads the same line the same way. |
| Examples.CEmptyExample | rogue-eaccess/src/lib.rs:328-331 | A C line with no characters ends after the fourth number. |
| Examples.CEmptyCountExample | rogue-eaccess/src/nom.rs:344 | An empty first count makes both backends panic. |

## Left out

- rogue-playground/src/main.rs is not part of this model. It holds the TCP connection, the credential prompts, logging and the sequencing of requests.
- `ENDPOINT` is configuration only.
- The text of parse errors is produced by chumsky and nom. The model has one opaque `ParseError`.
- Combinator internals of chumsky and nom are not modelled. Each primitive is modelled by its observable behaviour on a string: the value, the rest, failure or panic.
- Lifetimes, borrowed slices, derives, `thiserror`, iterator laziness and the `chain!`/`format!` machinery are not modelled. Values are plain sequences, and concatenation is `+`.
- Hashing.HashByte: models the release-build wrap-around of `p - 0x20` and `+ 0x20`. A debug build panics on overflow, and that panic is not modelled.
- Wire.Number: models the `unwrap` panic as an explicit `Panicked` outcome, not as a Rust panic that unwinds the caller.
- The `out` encoders write their arguments as given. The model states what a request carries only for arguments without tabs or newlines, and for the A request only for an account without a tab. It does not state what a reader sees otherwise.
- The `Render` functions are reference definitions of the canonical response lines, not code of the crate: the crate only parses responses.
