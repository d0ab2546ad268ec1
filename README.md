# Political news bot: headline-to-decision core

A Dafny model of the decision core of `news_bot.py`, a bot that reads the first
entries of an RSS feed, asks a language model to classify each new headline and turns
the classification into a paper-trading action. The model covers three parts:

- **Response parser** (`parse_ai_response`). The classifier's reply is split on line
  feeds. Every line holding a colon is split at its first colon, and both halves are
  stripped. The pair goes into a dictionary, so a later line with the same key replaces
  an earlier one. `ResponseParser.ParseAiResponse` is the loop, proved equal to the
  specification function `ResponseParser.Parse`. The string primitives it needs
  (`str.strip`, `str.split("\n")`, the first-colon search) are in module `Text`.
- **Decision engine** (`decide_action`). This is a pure, ordered rule evaluation.
  `Decision.DecideAction` returns an `Action` datatype. `Decision.Render` gives the exact
  string the source returns for each action. The `Confidence` field is converted first
  (`IntLiteral.ParseInt` models `int()`), before relevance is looked at. A missing field
  counts as 0. A present field that is not an integer is the error action, whatever the
  other fields hold. The threshold is `CONFIDENCE_THRESHOLD = 70`.
- **Dedup filter and main loop** (`run_bot`). The module-level `seen_headlines` set is
  the field `seen` of class `NewsBot.Bot`. `Bot.RunFeed` walks the first five entry
  titles of a feed in order. It skips a title that is already in the set. Otherwise it
  adds the title to the set, then classifies, parses and decides it. `Bot.RunBot` does
  this for every feed in turn. The titles processed are exactly
  `NewsBot.NewTitles(Considered(titles), old(seen))`. The lemmas about that function
  show that processed titles are new, none is missed, none repeats, and feed order is kept.

The external classifier (`classify_headline`) is the parameter `classify: string -> string`
of `RunFeed` and `RunBot`: the model says what is done with whatever reply it returns.

Where the design text and the code disagree, the model follows the code:
- A non-integer `Confidence` is not treated as 0. `int()` raises at news_bot.py:72, and the
  handler at news_bot.py:95-96 turns that into `NO ACTION (Error: ...)`. This happens even
  when `MarketRelevant` is not `Yes`.
- The seen set lives only in memory for the life of the process (news_bot.py:23). The code
  has no file that loads or saves it.
- Titles are compared exactly as the feed gives them, without trimming (news_bot.py:135-137).
- A classifier failure is not caught. An exception from `classify_headline` would end the
  whole run. The design instead skips that headline.

## Model

| member | source | states |
|---|---|---|
| `Text.StripLeftShape` | news_bot.py:62 | left stripping removes a whitespace-only prefix and leaves a text that is empty or starts with a non-space |
| `Text.StripRightShape` | news_bot.py:62 | right stripping removes a whitespace-only suffix and leaves a text that is empty or ends with a non-space |
| `Text.StripShape` | news_bot.py:62 | `strip()` returns a slice of the input with only whitespace on either side of it, and the slice neither starts nor ends with whitespace |
| `Text.StripPadded` | news_bot.py:62 | `strip()` of a core padded with whitespace is exactly the core, so stripping removes the padding and nothing else |
| `Text.StripIdempotent` | news_bot.py:62 | stripping twice gives the same text as stripping once |
| `Text.SplitLines` | news_bot.py:59 | `split("\n")` always gives at least one piece, and no piece holds a line feed |
| `Text.JoinSplitLines` | news_bot.py:59 | joining the pieces of `split("\n")` with line feeds gives the original text back |
| `Text.SplitJoinLines` | news_bot.py:59 | splitting the join of lines that hold no line feed gives those lines back |
| `Text.SplitSingleLine` | news_bot.py:59 | a text without a line feed is a single line |
| `Text.SplitFirstLine` | news_bot.py:59 | a line feed ends the first line and the rest is split on its own |
| `Text.SplitLinesChars` | news_bot.py:59 | a character absent from the text is absent from every line |
| `Text.FirstColon` | news_bot.py:61 | the index found holds a colon and no earlier position does |
| `Text.FirstColonAfter` | news_bot.py:61 | after a colon-free prefix the first colon is the one that follows it, whatever comes after |
| `ResponseParser.ParseAiResponse` | news_bot.py:57-63 | the dictionary built by the loop equals the specification `Parse(text)` |
| `ResponseParser.ParseKeys` | news_bot.py:59-62 | a key is in the dictionary exactly when some line holds a colon and its stripped text before the first colon is that key |
| `ResponseParser.ParseLastWins` | news_bot.py:62 | the value of a key comes from the last line carrying that key (later lines overwrite) |
| `ResponseParser.ParseValueSource` | news_bot.py:59-62 | every stored value is the stripped text after the first colon of the last line carrying its key |
| `ResponseParser.ParseNoFields` | news_bot.py:60 | lines without a colon contribute nothing |
| `ResponseParser.ParseColonFree` | news_bot.py:58-63 | a reply with no colon at all gives the empty dictionary |
| `ResponseParser.ParseEmpty` | news_bot.py:58-63 | the empty reply gives the empty dictionary, not an error |
| `ResponseParser.ParseDistinctCount` | news_bot.py:59-62 | with no repeated key, the dictionary has one entry per colon line |
| `ResponseParser.FieldLine` | news_bot.py:61-62 | a line is split at its first colon only: the key is the stripped prefix and the value keeps any later colons |
| `ResponseParser.SingleFieldLine` | news_bot.py:57-63 | a one-line reply `a:b` gives the dictionary holding only `strip(a)` mapped to `strip(b)` |
| `ResponseParser.ValueKeepsColons` | news_bot.py:61-62 | a line `key: a: b` gives the dictionary mapping `key` to `"a: b"`, so the value keeps its colons (as `"Explanation: a: b"` maps `Explanation` to `"a: b"`) |
| `ResponseParser.FieldLines` | news_bot.py:37-41 | the requested reply format has one `key: value` line per field, in order |
| `ResponseParser.StripWellFormed` | news_bot.py:62 | stripping leaves a well-formed key unchanged and removes the blank after the colon from a well-formed value |
| `ResponseParser.FieldOf` | news_bot.py:61-62 | a well-formed `key: value` line reads back as exactly that key and value |
| `ResponseParser.ParseFormatReply` | news_bot.py:57-63 | parsing a reply in the requested format with distinct field names gives back every field's value and no other key |
| `IntLiteral.ShowNatDigits` | news_bot.py:72 | the decimal form of a natural number is a non-empty, unsigned string of digits whose value is that number |
| `IntLiteral.ParseShowInt` | news_bot.py:72 | `int(str(n)) == n` for every integer |
| `IntLiteral.ParseIntAccepts` | news_bot.py:72 | a sign and leading zeros are accepted (`"007"`, `"+5"`, `"-12"`) |
| `IntLiteral.ParseIntRejects` | news_bot.py:72 | the empty string, a bare sign, letters, a decimal point and a double sign are rejected |
| `Decision.RenderErrorPrefix` | news_bot.py:76-96 | a displayed action starts with `NO ACTION (Error: ` exactly when it is the error action |
| `Decision.RenderInjective` | news_bot.py:76-96 | distinct actions are displayed as distinct strings |
| `Decision.ErrorIff` | news_bot.py:71-96 | the error action comes exactly from a present `Confidence` that is not an integer, whatever the other fields; its text starts with `NO ACTION (Error: ` and no other text does |
| `Decision.NotRelevantIff` | news_bot.py:72-76 | `Not market relevant` comes exactly from a usable confidence (absent or an integer) together with `MarketRelevant` absent or not exactly `Yes` |
| `Decision.LowConfidenceIff` | news_bot.py:78-79 | `Low confidence` comes exactly from a relevant classification whose confidence is below 70 |
| `Decision.ConfidentUsesRuleTable` | news_bot.py:78-93 | a relevant classification with confidence at least 70 is decided by the rule table on its Category and Sentiment |
| `Decision.RuleTableCases` | news_bot.py:84-93 | (MonetaryPolicy, Negative) sells bonds, (FiscalPolicy, Positive) buys equities, (Geopolitics, Negative) is risk off, each in both directions; every other pair, absent fields included, is `Rule mismatch` |
| `Decision.ThresholdBoundary` | news_bot.py:72-93 | for a decimal confidence c and a relevant classification, c < 70 is `Low confidence` and c >= 70 reaches the rule table |
| `Decision.EmptyClassification` | news_bot.py:72-76 | the empty dictionary gives `NO ACTION (Not market relevant)` |
| `Decision.LowConfidenceExample` | news_bot.py:78-79 | a relevant classification with confidence `"69"` is `NO ACTION (Low confidence)` |
| `Decision.ThresholdExample` | news_bot.py:78-93 | a relevant classification with confidence `"70"` and no category or sentiment is `NO ACTION (Rule mismatch)` |
| `Decision.RuleExamples` | news_bot.py:84-93 | confidence 90 with (MonetaryPolicy, Negative) is `SELL BONDS (Paper Trade)`; with Positive instead it falls through to `NO ACTION (Rule mismatch)` |
| `Decision.ErrorExample` | news_bot.py:71-96 | confidence `"abc"` is the error action even when `MarketRelevant` is `No`, displayed as `NO ACTION (Error: abc)` |
| `NewsBot.Considered` | news_bot.py:134 | the considered titles are the first five entries (all of them when there are fewer) |
| `NewsBot.Bot.constructor` | news_bot.py:23 | the seen set starts empty |
| `NewsBot.Bot.RunFeed` | news_bot.py:134-148 | afterwards the seen set is the old one plus every considered title; the processed headlines are `NewTitles` of the considered titles; each one's dictionary is the parse of its classifier reply and its action is decided from that dictionary |
| `NewsBot.Bot.RunBot` | news_bot.py:131-148 | over all feeds in order, the seen set gains every considered title, and the processed headlines are `NewTitles` of all considered titles in sequence, each classified, parsed and decided |
| `NewsBot.ElementsOfAppend` | news_bot.py:131-140 | the titles seen over two batches are the union of each batch's titles |
| `NewsBot.NewTitlesStep` | news_bot.py:137-140 | one more title is processed exactly when it is not yet in the seen set, and the seen set then contains it |
| `NewsBot.NewTitlesAppend` | news_bot.py:131-140 | processing two batches in turn equals processing their concatenation, the first batch's titles being seen when the second starts |
| `NewsBot.NewTitlesSound` | news_bot.py:137-138 | every processed title was considered and was not in the seen set before |
| `NewsBot.NewTitlesComplete` | news_bot.py:134-140 | every considered title that was not seen before is processed |
| `NewsBot.NewTitlesDistinct` | news_bot.py:137-140 | a title repeated within a batch is processed at most once |
| `NewsBot.NewTitlesInOrder` | news_bot.py:134 | the processed titles keep feed order |
| `NewsBot.NewTitlesBound` | news_bot.py:134-145 | no more titles are processed than are considered, so at most five classifier calls per feed |
| `NewsBot.OnlyFirstFive` | news_bot.py:134-138 | a processed title is among the first five entries and was not seen before |
| `NewsBot.NewTitlesAllSeen` | news_bot.py:137-138 | a batch whose titles are all seen processes nothing |
| `NewsBot.RerunProcessesNothing` | news_bot.py:134-140 | once a feed has been run, running it again in the same process processes nothing |
| `NewsBot.DuplicateHeadlineOnce` | news_bot.py:134-140 | a feed holding the same headline twice processes it once |
| `NewsBot.ReplyKeysWellFormed` | news_bot.py:37-41 | the five requested field names are distinct and well-formed keys |
| `NewsBot.ShowIntWellFormed` | news_bot.py:40 | a decimal confidence is a well-formed field value |
| `NewsBot.ReplyDecides` | news_bot.py:57-96 | for every reply in the requested format, parsing and deciding gives `Not market relevant` unless relevance is `Yes`, then `Low confidence` below 70, and otherwise the rule table on the reply's Category and Sentiment |
| `NewsBot.ReplyExample` | news_bot.py:57-96 | the formatted reply for a confident negative monetary-policy headline gives `SELL BONDS (Paper Trade)` |

## Left out

- `classify_headline` (news_bot.py:29-50) is an external chat-completion call. It is a function parameter, so its reply is an arbitrary string. Network failures, and the exception that would end the run, are not modelled.
- `log_signal` (news_bot.py:103-120) is left out. It reads the wall clock, uses a DataFrame and does CSV I/O. A `Signal` value holds the headline, the parsed fields and the action, which is what a log row would take. The timestamp and the file are not modelled.
- Feed fetching by `feedparser.parse`, environment loading and client set-up (news_bot.py:1-17, 132) are left out. A feed is given as its sequence of entry titles.
- Printing and `time.sleep(2)` in `run_bot` (news_bot.py:128-129, 142-143, 150-160) are console output and timing only.
- `Text.IsSpace`: `str.strip()` also removes the ASCII separators U+001C to U+001F and the non-ASCII whitespace characters. The model strips only space, tab, line feed, carriage return, vertical tab and form feed.
- `IntLiteral.ParseInt`: Python's `int()` also accepts underscores between digits, non-ASCII decimal digits and surrounding whitespace. Recent interpreters also reject literals longer than 4300 digits. The model accepts exactly an optional sign followed by one or more ASCII digits.
- `Decision.Render`: for the error action it shows the `Confidence` text that was rejected. Python's message (`invalid literal for int() with base 10: ...`) depends on the interpreter and is not reproduced.
- Persisting the seen set is not modelled, because this source has no persistence. The set lasts only as long as the `Bot` object, just as the module-level set lasts only as long as the process.
