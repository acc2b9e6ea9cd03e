# octet-zone: label tokenizer and request handler

octet-zone is an authoritative DNS responder that answers a name such as
`2001.0db8._.0001.octet.zone` with the IPv6 address spelled by its labels. This
project models two parts of it in Dafny.

- **The label tokenizer** (`src/parser.rs`), in `parser.dfy`, module `Parser`.
  `Classify` is the first-match cascade of `add_token_from_label`:
  - `_` gives `Filler`;
  - `local` gives `LocalModifier`;
  - `^[0-9]{1,3}$` with a value of at most 255 gives `Octet`;
  - `^[0-9a-fA-F]{4}$` gives `HexBlock`;
  - `^x([0-9a-fA-F]{1,3})$` gives `HexBlock`;
  - anything else gives `Unknown`.

  The three regular expressions are predicates on the label's characters.
  Rust's `str::parse::<u16>` and `u16::from_str_radix` are modelled as
  `FromStrRadix`. It accepts one optional leading `+`, rejects any non-digit,
  and fails on overflow past 65535 with checked arithmetic. So the claim that
  the parse-error fallbacks can never be taken is proved (`ClassifyMatchesRules`),
  not assumed. `RuleToken` is the reference definition: the same rules stated
  with the numbers the labels denote. The class `Parser` keeps its token list
  as a sequence field, and `AddTokenFromLabel` appends to it.
- **The request handler** (`src/handler.rs`), in `handler.dfy`, module `Handler`.
  The handler's configuration (zone, optional apex IPv4 and IPv6 addresses) is
  the value type `Handler`, because the handler never changes it. Its methods
  follow the source:
  - `HandleRootRequest` pushes the apex records one at a time;
  - `DoHandleRequest` makes the checks in order, then feeds every label to a
    fresh `Parser` in a loop;
  - `HandleRequest` turns any error into one TXT record.

  `Route` is the function the routing methods are proved against.
  DNS messages are reduced to the opcode, message type and query name that the
  handler reads, and to the authoritative flag and answer records that it sends.
  A name is its list of labels, most specific first. Names are lower-case
  (`LowerName`), as hickory's `LowerName` guarantees.

`Parser::to_address` (the address decoder, called at `src/handler.rs:102`) is
not modelled. The handler takes it as a parameter: a function from the token
list to a 16-byte address or one of `InvalidAddress` and `NotEnoughOctets`. Every statement about the handler
holds for every such decoder.

`zone_of` is the label-suffix relation. `num_labels` is modelled as hickory
defines it: a leading wildcard label `*` is not counted. So the apex check at
`src/handler.rs:90` also accepts `*.<zone>`, which then gets the apex's A/AAAA
answer (`RouteApex`, `ApexNames`). For names without a leading `*`, the check
means "equal to the zone" (`DescendantHasMoreLabels`).

Records go to the response builder unfiltered (`src/handler.rs:67`, `111`,
`143`). Errors other than `InvalidAddress` and `NotEnoughOctets` also become a
TXT record, with the text "Unknown error".

## Model

| member | source | states |
|---|---|---|
| `Parser.DigitClasses` | src/parser.rs:24-26 | the regex classes `[0-9]` and `[0-9a-fA-F]` accept exactly the characters that are digits in radix 10 and 16; decimal digits have the same value in both radixes |
| `Parser.Accumulate` | src/parser.rs:59 | the checked digit loop of `from_str_radix`, when it succeeds on a non-empty digit string, yields at most 65535 |
| `Parser.DigitsValue` | src/parser.rs:41 | the number an n-digit string denotes in radix r is below r^n |
| `Parser.DecimalValue` | src/parser.rs:38-53 | the value of a label `^[0-9]{1,3}$` accepts is below 1000 (leading zeros allowed) |
| `Parser.HexValue` | src/parser.rs:56-81 | the value of one to four hex digits is below 16^n, so it fits in a u16 |
| `Parser.DigitsValuePrefix` | src/parser.rs:41 | a prefix of a digit string denotes no more than the whole string, so the intermediate results of the checked loop never overflow before the final one does |
| `Parser.AccumulateComputesValue` | src/parser.rs:59 | running the parse loop from the value of a prefix over the remaining digits ends at the value of the whole string, when that fits in a u16 |
| `Parser.FromStrRadixOfDigits` | src/parser.rs:41 | `from_str_radix` returns the value of any non-empty digit string whose value fits in a u16 |
| `Parser.DecimalParses` | src/parser.rs:41 | parsing a label the octet pattern accepts as u16 never fails and yields its decimal value |
| `Parser.HexParses` | src/parser.rs:73 | parsing one to four hex digits base 16 as u16 never fails and yields their value |
| `Parser.ClassifyMatchesRules` | src/parser.rs:31-81 | for every label, the cascade equals the rule-by-rule reference `RuleToken`; the parse-error fallbacks are unreachable, and every label gets exactly one token |
| `Parser.ClassifyLiterals` | src/parser.rs:31-35 | `Filler` comes exactly from `_` and `LocalModifier` exactly from `local` (exact, case-sensitive match, checked before the numeric rules) |
| `Parser.ClassifyOctet` | src/parser.rs:38-53 | a label yields an `Octet` exactly when it is one to three decimal digits denoting at most 255, and the octet is that value |
| `Parser.ClassifyLargeDecimal` | src/parser.rs:42-43 | one to three decimal digits denoting more than 255 end as `Unknown`, because no later rule matches them |
| `Parser.ClassifyHexBlock` | src/parser.rs:56-67 | four hex digits of either case yield `HexBlock` of their base-16 value, all-decimal labels included |
| `Parser.ClassifyShortHexBlock` | src/parser.rs:70-81 | `x` and one to three hex digits yield `HexBlock` of the digits' value, which is below 0x1000 |
| `Parser.ClassifyHexBlockSource` | src/parser.rs:55-81 | a label yields a `HexBlock` exactly when it matches one of the two hex patterns |
| `Parser.ClassifyRejectsOtherPrefixes` | src/parser.rs:26 | a label starting with capital `X`, or with more than three characters after `x`, ends as `Unknown` |
| `Parser.ClassifyDecimalExamples` | src/parser.rs:38-53 | "007" is `Octet(7)`, "255" is `Octet(255)`, "256" and "999" are `Unknown` |
| `Parser.ClassifyHexExamples` | src/parser.rs:56-67 | "1234" is `HexBlock(0x1234)` and not an octet; "beef" is `HexBlock(0xBEEF)` |
| `Parser.ClassifyCaseExamples` | src/parser.rs:31-81 | "BEEF" is `HexBlock(0xBEEF)`; "LOCAL" and "Xfff" are `Unknown` |
| `Parser.ClassifyShortHexExamples` | src/parser.rs:70-81 | "xfff" is `HexBlock(0xFFF)`; "x1234" is `Unknown` |
| `Parser.Tokenize` | src/handler.rs:96-98 | the tokens of a label list: one per label, the i-th being the classification of the i-th label |
| `Parser.TokenizeExampleName` | src/handler.rs:96-98 | the labels of `2001.0db8._.0001.octet.zone` become two hex blocks, a filler, a hex block and two unknown zone labels, in that order |
| `Parser.TokenizeAppend` | src/handler.rs:96-98 | tokenizing a concatenation of label lists concatenates their tokens |
| `Parser.Parser.constructor` | src/parser.rs:21-28 | a new parser has no tokens |
| `Parser.Parser.AddTokenFromLabel` | src/parser.rs:30-84 | exactly one token, the label's classification, is appended at the end; the earlier tokens are unchanged |
| `Handler.ErrorText` | src/handler.rs:135-139 | the text is "Invalid address" exactly for `InvalidAddress`, "Not enough octets" exactly for `NotEnoughOctets`, and "Unknown error" exactly for every other error |
| `Handler.ApexNames` | src/handler.rs:90 | a name in the zone with as many counted labels as the zone is the zone itself or `*` directly under it |
| `Handler.DescendantHasMoreLabels` | src/handler.rs:90 | for a name in the zone without a leading `*`, equal label counts hold exactly when the name is the zone |
| `Handler.Handler.ApexReply` | src/handler.rs:57-65 | the apex answer is authoritative and has an A record (TTL 3600) first iff an IPv4 address is configured and an AAAA record (TTL 3600) last iff an IPv6 address is, and nothing else |
| `Handler.Handler.HandleRootRequest` | src/handler.rs:48-69 | the records pushed one by one form the apex answer |
| `Handler.Handler.DoHandleRequest` | src/handler.rs:71-118 | the checks and the label loop produce the routing outcome; the loop keeps one token per label processed so far |
| `Handler.Handler.HandleRequest` | src/handler.rs:123-147 | the reply is always authoritative; a successful outcome is sent as it is; any error becomes exactly one TXT record at the query name with TTL 60 holding the error's text |
| `Handler.Handler.RouteRejections` | src/handler.rs:76-88 | `InvalidOpCode` exactly when the opcode is not Query; `InvalidMessageType` exactly when the opcode is Query and the message type is not; `InvalidZone` exactly when both are Query and the name is not in the zone; never `Io` |
| `Handler.Handler.DecoderOnlyBelowApex` | src/handler.rs:86-98 | if two decoders give different outcomes for a request, it is a valid query for a name strictly below the apex, so rejected and apex requests never reach the decoder |
| `Handler.Handler.RouteApex` | src/handler.rs:90-91 | a valid query in the zone with the zone's label count gets the apex answer, and that name is the zone or `*` under it |
| `Handler.Handler.RouteBelowApex` | src/handler.rs:94-117 | below the apex the decoder receives one token per label of the whole name, the zone's labels last; a decoded address becomes the one AAAA answer, and a decode error is returned unchanged |
| `Handler.Handler.RouteSuccess` | src/handler.rs:104-112 | every successful outcome is authoritative, has at most two answers, all at the query name with TTL 3600, and exactly one AAAA answer below the apex |

## Left out

- `Parser::to_address` (the address decoder) is not modelled; the handler takes it as a function parameter.
- `Parser::print_tokens` only writes to standard output.
- `Handler::from_options` and all of `src/main.rs`: argument parsing, address parsing through library calls, the runtime, socket binding and the server loop are configuration and I/O.
- `send_response` and wire encoding are I/O in the DNS library. The `Io` error they can raise is therefore never produced here; it is modelled only as an error that maps to "Unknown error". The panic from `unwrap` on a failed error reply is also I/O.
- The header is reduced to its authoritative flag. Copying the request id and flags is done by the DNS library.
- Labels are taken to be valid UTF-8; the `unwrap` in `std::str::from_utf8` is not modelled.
- The compiled `Regex` fields of `Parser` are replaced by predicates on the label's characters.
