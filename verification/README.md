# curlie's streaming JSON formatter, in Dafny

This project models `formatter.JSON`, the `io.Writer` that curlie puts in
front of the terminal to pretty-print and colour JSON output. It never parses
its input. It is a byte-by-byte transducer whose state is six fields: `inited`,
`disabled`, `last`, `lastQuote`, `isValue` and `level`. The state is carried
from one `Write` call to the next.

- `Bytes` (bytes.dfy) holds the byte type, the ASCII values the formatter
  reacts to, and models of `bytes.Repeat` and `bytes.Contains`. It also defines
  `InsertsOnly(p, o, E)`: `o` is `p` with bytes from the set `E` inserted.
- `Json` (json.dfy) holds the colour scheme and the writer state. `Step` is one
  iteration of the loop in `(*JSON).Write`. `Run` folds `Step` over a chunk.
  `Decide` is the first-chunk check. `Chunk` is what one call hands to the sink.
  `Write` is the Go method itself: a loop that calls `Step`, one sink write, and
  the mapping of the sink's reply.
- `Stream` (stream.dfy) states properties over many bytes and many chunks:
  composition across chunk boundaries, depth bounds, the frozen disabled mode,
  the marker pass-through and input preservation.
- `Scenarios` (scenarios.dfy) states what a fresh writer emits for concrete
  inputs with the empty colour scheme, the configuration of the repository's
  tests.

The model reproduces the code's quirks as written:
- structural bytes `{ } [ ] : ,` are acted on even inside quoted strings;
- the escape rule looks only at the previous byte, also outside strings;
- in `\\"` the second backslash counts as escaped, and then so does the quote
  after it (`EscapedBackslashKeepsStringOpen`);
- only a stream whose first byte is `{` or `[` is ever formatted.

Two consequences of the code that are easy to miss:
- A sink that returns fewer bytes than it was given, with a nil error, makes
  `Write` return that count with a nil error (formatter/json.go:108-111).
  The documentation of `io.Writer` requires an error with every short write,
  but `Write` passes the sink's reply on unchanged (`Write`).
- Formatting a marker-free stream gives exactly the same bytes however the
  stream is cut into chunks, colour bytes included (`FeedPartition`). The
  exception is any stream whose concatenation contains the marker, whether
  the marker sits inside a later chunk or straddles a chunk boundary
  (`MarkerSplitDiffers`, `MarkerStraddleDiffers`).
- On a failed sink write, `Write` returns the sink's count, which counts the
  formatted bytes rather than `p`'s. It can exceed `len(p)`, outside the
  `0 <= n <= len(p)` range of `io.Writer` (formatter/json.go:108-110,
  `FailedWriteOverreports`).

## Model

| member | source | states |
|---|---|---|
| Bytes.Repeat | formatter/json.go:73 | `bytes.Repeat(unit, n)` is `n` copies of `unit`, so its length is `len(unit) * n` |
| Bytes.RepeatSpaces | formatter/json.go:23 | repeating the four-space `indent` `n` times gives exactly `4 * n` spaces |
| Bytes.Contains | formatter/json.go:36 | the left-to-right scan is true exactly when the marker occurs at some index of the chunk |
| Bytes.ContainsInConcat | formatter/json.go:36 | a chunk containing the marker still contains it after anything is added before or after it |
| Json.PlainPalette | formatter/json.go:42-107 | with the empty colour scheme the only bytes the formatter may insert are newlines and spaces |
| Json.Indentation | formatter/json.go:23 | `bytes.Repeat(indent, level)` is `4 * level` spaces |
| Json.Step | formatter/json.go:43-106 | per byte: after a backslash the byte is copied and only `last` changes. A quote opens a string only when none is open, and only the same quote closes it. `{`/`[` add one level; `}`/`]` remove one, clamped at 0. Newlines and `4*level` spaces go after `{ [ ,` and before `} ]`. `:` sets the value context; `, { [` clear it. Only a scalar byte right after `:` gets a colour prefix: Literal for `n t f`, Value otherwise |
| Json.StepInsertsOnly | formatter/json.go:44-105 | each step's output is `pre ++ [b] ++ post`, where `b` is the input byte and `pre` and `post` consist only of colour bytes, newlines and spaces |
| Json.Run | formatter/json.go:42-107 | the loop keeps the depth non-negative, leaves the enable decision alone, keeps `lastQuote` a quote or 0, and ends with `last` equal to the chunk's last byte. The input is a subsequence of the output, in order, and every other output byte is a palette byte |
| Json.RunCounts | formatter/json.go:42-107 | a chunk's loop neither adds nor drops any byte outside the palette: each occurs in the output exactly as often as in the chunk |
| Json.Decide | formatter/json.go:26-30 | the first non-empty chunk sets `inited`, and sets `disabled` exactly when it does not start with `{` or `[`. An empty chunk, or any chunk once inited, changes nothing |
| Json.Chunk | formatter/json.go:25-107 | empty chunks do not take the decision, and later chunks do not revisit it. A disabled writer forwards the chunk verbatim and keeps its state. A marker chunk is forwarded verbatim with `last`, `lastQuote`, `isValue` and `level` unchanged. The depth stays non-negative. The input is a subsequence of the output with only palette bytes added, and every byte outside the palette occurs in the output exactly as often as in the input |
| Json.Write | formatter/json.go:25-113 | the method's loop computes exactly `Chunk`, so a marker chunk reaches the sink unchanged. A disabled writer hands the sink `p` itself. The call reports `(len(p), nil)` when the sink took everything; otherwise it passes on the sink's own `(n, err)` |
| Stream.Feed | formatter/json.go:25-107 | successive writes keep the depth non-negative |
| Stream.RunAppend | formatter/json.go:42-107 | formatting `p1 ++ p2` equals formatting `p1`, then `p2` from the state `p1` left behind |
| Stream.RunDepthBounds | formatter/json.go:67-78 | after a chunk the depth is between the start minus the closers and the start plus the openers |
| Stream.RunDepthExact | formatter/json.go:44-78 | with no backslash in the chunk or just before it, and no closing bracket, the depth rises by exactly the number of `{` and `[` |
| Stream.EscapedQuoteStaysInString | formatter/json.go:44-66 | inside a string whose previous byte is not `:`, `\` followed by the open quote is copied verbatim and the string stays open; after a `:` the colon rule would colour the backslash |
| Stream.EscapedBackslashKeepsStringOpen | formatter/json.go:44-48 | inside a string, `\\"` leaves the string open: the escape test looks only at the previous byte |
| Stream.ChunkCompose | formatter/json.go:25-107 | if `p1 ++ p2` has no marker, writing `p1` then `p2` sends the same bytes and leaves the same state as writing `p1 ++ p2` once. An empty first chunk is allowed |
| Stream.FeedPartition | formatter/json.go:25-107 | any split of a marker-free stream into chunks is formatted exactly like the unsplit stream |
| Stream.DisabledForever | formatter/json.go:31-33 | once disabled, every later chunk is forwarded verbatim and the state never changes |
| Stream.NonJsonStreamVerbatim | formatter/json.go:26-33 | a fresh writer whose first byte is not `{` or `[` forwards the whole stream verbatim, whatever the chunking |
| Stream.DecisionIsFinal | formatter/json.go:26-30 | once taken, the enable/disable decision survives any later sequence of writes |
| Stream.MarkerChunkTransparent | formatter/json.go:35-38 | after the decision, a marker chunk is forwarded verbatim, changes no state, and so leaves the formatting of the rest of the stream unchanged |
| Stream.FeedInsertsOnly | formatter/json.go:42-107 | across any sequence of writes, the concatenated input is a subsequence of what the sink receives, every other byte is a colour byte, a newline or a space, and every byte outside that palette occurs exactly as often as in the input |
| Stream.MarkerSplitDiffers | formatter/json.go:35-38 | the marker condition of chunk composition cannot be dropped: `{` followed by a marker-only chunk differs from both sent at once |
| Stream.MarkerStraddleDiffers | formatter/json.go:35-38 | a marker cut across two chunks is not seen by either check: `{` plus the marker's first six bytes, then the rest, differs from the whole stream sent at once |
| Scenarios.SmallObject | formatter/json_test.go:18-19 | `{"a":1}` with the empty scheme becomes `{`, a newline, `    "a": 1`, a newline and `}`, and ends at depth 0 |
| Scenarios.PlainTextError | formatter/json.go:26-33 | `plain text error` is forwarded unchanged, and so is whatever the disabled writer receives next |
| Scenarios.OpenBraceBytes | formatter/json.go:67-78 | a lone `{` from a fresh writer becomes the brace, a newline and four spaces |
| Scenarios.FailedWriteOverreports | formatter/json.go:108-110 | a sink that fails after taking all but one byte of the formatted `{` makes `Write` report 5 bytes written for a 1-byte input, with the sink's error |
| Scenarios.SplitKey | formatter/json.go:42-107 | `{"a` followed by `b":1}` is formatted like `{"ab":1}` sent whole |

## Left out

- main.go is not part of this model. It handles argument translation, running curl, exit status, terminal detection and console setup.
- `ColorScheme` and `DefaultColorScheme` are defined in a file that is not part of this model. The scheme is four arbitrary byte strings, and every general property in `Json` and `Stream` holds for all of them; the `Scenarios` lemmas use the empty scheme.
- `ParseJsonUnicode` is carried by the Go struct, but `Write` never reads it.
- `buf` is never assigned, so every call starts from an empty output buffer, as `Write` does here.
- The `io.Writer` sink is a function from the bytes it is given to its `(n, err)` reply. Any sink behaviour is some such function. The OS stdout used by the tests is not modelled.
- Stream.Feed: records the bytes handed to the sink and the final state, not the sink's replies. In the Go code the state is updated before the sink write, so a failed write changes nothing here. Each call's reply is covered by `Write`.
- `level` is an unbounded integer. Go's `int` (32 or 64 bits) would wrap after 2^31 or 2^63 nested openers, which no real input reaches.
- Json.Run: for a byte that is itself a palette byte (a space, a newline, or a byte of some colour), the chunk-level contracts promise only that the input survives in order, not an exact count. A colour may contain any byte, so counts of palette bytes are not determined by the input alone. Each single step is exact (`StepInsertsOnly`).
- Concurrency between writer instances is not modelled. Each instance is sequential and owns its state.
