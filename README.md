# jp-subs-freq-gen: a verified model of the frequency report

jp-subs-freq-gen reads Japanese subtitle files, splits their text into words
with a morphological tokenizer, and writes a table of word frequencies to
`freq.txt`. This project models the core of `main.go` in Dafny and proves
properties of it:

- **the junk filter**: the 47-entry blacklist `junkTokens`, `isJunkToken`,
  and `removeJunkFromToken`. The last removes every blacklisted code point
  from a raw token.
- **the aggregator**: the loop over each file's tokens. It keeps a table from
  cleaned token to count and, in `longestTokenLen`, the length in code points
  of the longest *raw* token that was kept.
- **the ranker**: one pass over the table, in Go's unspecified map order,
  collects the keys and `heighestFreq`. Then `sort.Slice` orders the keys by
  non-increasing count.
- **the renderer**: a border line, a label line, another border line, and
  one row per ranked key. The token column is `2 * longestTokenLen` wide. The
  count column is `len(strconv.Itoa(heighestFreq)) + 4` wide. A row's token
  width is reduced by one for each East Asian Wide or Fullwidth code point in
  it. Every cell is left-justified, padded on the right with spaces and never
  truncated.

Strings are sequences of code points (Go runes); Go's `int` counts are
unbounded naturals. Modules follow the program's stages:
- `Junk` (junk.dfy): the blacklist and the cleaning of a token;
- `Aggregate` (aggregate.dfy): the tally;
- `Rank` (rank.dfy): the ranking;
- `Render` (render.dfy): the table text;
- `Report` (report.dfy): the three stages put together.

Each loop of the source is a method with a `while` or `for` loop. It is
proved against a specification, and the properties are proved about that
specification:
- the cleaning loop is proved equal to the function `Clean`;
- the counting loops are proved equal to the functions `Step` and `Run`;
- the pass over the map is proved to collect exactly the table's keys (as a
  multiset, since Go's map order is unspecified), and `MaxCount` as the
  highest count;
- the library call `sort.Slice` is modelled by an insertion sort. It is
  proved to return a permutation that satisfies the predicate
  `SortedByFreq`, not equal to any one function, because ties may come in
  any order;
- the rendering loops are proved equal to the functions `TableLines` and
  `Concat`.

Some facts about this main.go that a reader might not expect:
- It removes only the 47 blacklisted code points. It has no Unicode-range
  classifier and no rule that drops a standalone kana. The particle list at
  main.go:22 is commented out, so "の" and "は" are counted
  (`Report.CatHeadsTheRanking`).
- The blacklist holds the kanji 一, which is removed from every word
  (`Junk.KanjiOneIsDropped`). It holds the opening bracket 「 but not the
  closing 」 (`Junk.ClosingBracketIsKept`). It holds 〞 but not 〝.
- Equal counts come in whatever order the unstable `sort.Slice` leaves
  them. The model promises only a permutation ordered by non-increasing
  count.
- There is no word-list mode; the report is always the table.

## Model

| member | source | states |
|---|---|---|
| `Junk.JunkTokensAreJunkChars` | main.go:23 | The blacklist has 47 entries, each one code point long; a string is on it exactly when it is a single blacklisted code point. |
| `Junk.ListedIsIn` | main.go:23 | The front-to-back lookup used for the blacklist agrees with sequence membership, in both directions. |
| `Junk.Member` | main.go:199-204 | The linear search returns true exactly when the token equals some entry. |
| `Junk.IsJunkToken` | main.go:198-205 | isJunkToken is true exactly when the token is on the blacklist, which is exactly when it is one blacklisted code point. |
| `Junk.RemoveJunkFromToken` | main.go:207-215 | The loop of per-rune ReplaceAll calls returns exactly the token's non-junk code points, in order. |
| `Junk.Clean` | main.go:207-215 | A cleaned token is never longer than the raw one and contains no blacklisted code point. |
| `Junk.Strip` | main.go:211 | Deleting a set of code points (ReplaceAll with a one-rune pattern) never lengthens the string and leaves none of them. |
| `Junk.StripTwice` | main.go:209-213 | Two successive deletions are one deletion of both sets: the order of the ReplaceAll calls does not matter. |
| `Junk.StripAppend` | main.go:211 | Deletion distributes over concatenation. |
| `Junk.StripNothing` | main.go:208 | Deleting nothing leaves the token unchanged (the loop's starting value). |
| `Junk.StripIsClean` | main.go:207-215 | Deleting exactly the junk code points that occur in a token is cleaning it. |
| `Junk.CleanAppend` | main.go:207-215 | Cleaning distributes over concatenation, so it keeps the order of what it keeps. |
| `Junk.CleanKeepsNonJunk` | main.go:207-215 | Every occurrence of a non-junk code point survives and no occurrence of a junk one does (multiset form). |
| `Junk.CleanOfClean` | main.go:207-215 | A junk-free token is returned unchanged. |
| `Junk.CleanIdempotent` | main.go:207-215 | Cleaning twice is cleaning once. |
| `Junk.CleanEmptyIffAllJunk` | main.go:59-62 | A token is discarded (cleans to "") exactly when all its code points are junk. |
| `Junk.KanaAndKanjiAreNotJunk` | main.go:22-23 | No kana and no CJK ideograph other than 一 is blacklisted (hiragana, katakana, halfwidth katakana, CJK Extension A, the unified and compatibility ideographs, and the ideographs beyond the BMP), so particles such as の are kept. |
| `Junk.BracketedQuestionMarkVanishes` | main.go:23 | "（？）" cleans to the empty string. |
| `Junk.KanjiOneIsDropped` | main.go:23 | "一人" cleans to "人": the kanji 一 is on the blacklist. |
| `Junk.ClosingBracketIsKept` | main.go:23 | "「猫」" cleans to "猫」": the opening bracket is removed, the closing one is kept. |
| `Junk.CatAndClosingBracketAreNotJunk` | main.go:23 | 猫 and 」 are not blacklisted. |
| `Aggregate.StepCounts` | main.go:59-63 | A token that cleans to "" changes nothing; otherwise its cleaned form's count goes up by one (from 0 when new), and every other key keeps its presence and count. |
| `Aggregate.StepLongest` | main.go:64-66 | longestTokenLen never decreases, covers the raw length of every kept token, and changes only to the raw length of a kept token. |
| `Aggregate.StepNewKey` | main.go:63 | Counting a new cleaned form adds it with count 1. |
| `Aggregate.StepOldKey` | main.go:63 | Counting a cleaned form already in the table raises its count by 1. |
| `Aggregate.StepKeepsValid` | main.go:58-66 | One token keeps the table's invariant: keys non-empty, junk-free, counted at least once, no longer than longestTokenLen. |
| `Aggregate.RunValid` | main.go:41-68 | After any token sequence the table satisfies that invariant; in particular "" is never a key. |
| `Aggregate.RunAppend` | main.go:58 | Counting one more token is one more step. |
| `Aggregate.Record` | main.go:59-66 | The loop body's updates to `frequencies` and `longestTokenLen` are exactly one step. |
| `Aggregate.CountTokens` | main.go:41-68 | The nested loop over files and their tokens yields exactly the tally of all tokens in file order. |
| `Aggregate.Occurrences` | main.go:58-63 | A key's occurrences among the cleaned tokens never exceed the number of tokens. |
| `Aggregate.OccurrencesAppend` | main.go:58-63 | One more token adds one occurrence exactly to its own cleaned form. |
| `Aggregate.CountsAreOccurrences` | main.go:58-63 | The count of every non-empty string is the number of tokens that clean to it, and it is a key exactly when that number is positive. |
| `Aggregate.Kept` | main.go:59-62 | The number of kept tokens never exceeds the number of tokens. |
| `Aggregate.KeptAppend` | main.go:59-62 | One more token adds one kept token exactly when it does not clean to "". |
| `Aggregate.SumRemove` | main.go:63 | The sum of a table's counts splits into any one key's count and the rest. |
| `Aggregate.StepSum` | main.go:59-63 | One token raises the sum of all counts by one if it is kept, and by nothing otherwise. |
| `Aggregate.SumIsKept` | main.go:58-67 | The counts add up to the number of kept tokens. |
| `Aggregate.LongestCoversKept` | main.go:64-66 | longestTokenLen is at least the raw length of every kept token. |
| `Aggregate.LongestIsAttained` | main.go:64-66 | A positive longestTokenLen is the raw length of some kept token. |
| `Aggregate.LongestIsLongestKept` | main.go:42-66 | longestTokenLen is the maximum raw length over kept tokens, and 0 exactly when no token was kept. |
| `Aggregate.RunGrows` | main.go:58-67 | Along the token stream, neither longestTokenLen nor any count ever decreases. |
| `Rank.MaxCount` | main.go:72-80 | The highest count bounds every count and is attained, or is 0 for an empty table. |
| `Rank.MaxCountUnique` | main.go:72-80 | Any bound that is attained (or is 0) is the highest count. |
| `Rank.CollectKeys` | main.go:72-80 | The pass over the map collects every key exactly once, in any order, and ends with heighestFreq equal to the highest count. |
| `Rank.CollectOne` | main.go:76 | Appending a new key keeps the collected keys equal to the set seen so far. |
| `Rank.SortByFreq` | main.go:82-85 | The sort leaves a permutation of the keys ordered by non-increasing count. |
| `Rank.Insert` | main.go:82-85 | One insertion step permutes the array, leaves its tail alone and extends the sorted prefix by one. |
| `Rank.Swap` | main.go:82-85 | An exchange of neighbours swaps exactly those two positions. |
| `Rank.InsertStarts` | main.go:82-85 | A sorted prefix is the starting state of an insertion. |
| `Rank.SwapKeeps` | main.go:82-85 | Exchanging the moving key with a neighbour of lower count keeps the insertion state, the multiset and the tail. |
| `Rank.SwapPermutes` | main.go:82-85 | An exchange of neighbours is a permutation that leaves everything after them alone. |
| `Rank.InsertEnds` | main.go:82-85 | When the moving key meets a neighbour with a count no lower than its own, the prefix is sorted. |
| `Rank.RankKeys` | main.go:72-85 | The ranking is a permutation of the table's keys ordered by non-increasing count, and heighestFreq is the highest count. |
| `Rank.RepeatedCountsTwice` | main.go:74-76 | A value at two positions of a sequence occurs at least twice in its multiset. |
| `Rank.PermutationOfKeys` | main.go:74-80 | A ranking lists every key of the table exactly once and nothing else. |
| `Rank.FirstKeyHasHighestFreq` | main.go:72-85 | The first key of a ranking of a non-empty table has the highest count. |
| `Rank.UniqueTopHeadsRanking` | main.go:82-85 | A key with a strictly highest count heads every ranking; only ties are left to the sort. |
| `Render.Repeat` | main.go:91 | strings.Repeat of one character gives that many copies of it. |
| `Render.PadRight` | main.go:92 | Left-justification to a width: the text, then spaces up to the width; a longer text is not truncated. |
| `Render.FormatWidth` | main.go:105-106 | A spliced width w pads to the absolute value of w: "%--3s" reads the second '-' as a flag. |
| `Render.Digit` | main.go:88 | A digit value maps to a character '0'..'9'. |
| `Render.Decimal` | main.go:88 | strconv.Itoa of a count is a non-empty run of decimal digits without a leading zero. |
| `Render.DecimalRoundTrip` | main.go:88 | Reading the decimal form of a count back gives the count. |
| `Render.DecimalLengthMonotone` | main.go:88 | A larger count never has a shorter decimal form, so the count column fits every count. |
| `Render.WideCount` | main.go:97-104 | shortenBy never exceeds the token's length. |
| `Render.WideCountAppend` | main.go:99-104 | The number of wide code points adds up over concatenation. |
| `Render.WideCountSpaces` | main.go:106 | Padding spaces add no wide code points. |
| `Render.TableLines` | main.go:87-108 | The report is three header lines followed by exactly one row per key. |
| `Render.Rows` | main.go:96-108 | There is one row per key. |
| `Render.ConcatJoin` | main.go:87-107 | The text of two line lists one after the other is the two texts joined. |
| `Render.RenderTable` | main.go:87-108 | The text built by the header appends and the loop over keys is exactly the specified table. |
| `Render.RenderHeader` | main.go:90-93 | The three header appends give border, label line and border. |
| `Render.RenderRows` | main.go:95-108 | The loop over keys appends their rows in order. |
| `Render.RowsExtend` | main.go:96-107 | One more key adds its row at the end. |
| `Render.ConcatExtend` | main.go:107 | Appending one row appends its text. |
| `Render.HeaderConcat` | main.go:91-93 | The header's text is the three header lines in order. |
| `Render.RenderRow` | main.go:97-107 | The inner loop counts exactly the wide code points of the key, and the row is formatted to the narrowed token width and the count width. |
| `Render.TokenWidthNotNegative` | main.go:105 | For a key no longer than longestTokenLen, 2 * longestTokenLen - shortenBy is never negative and never below the key's length. |
| `Render.TokenCellAligned` | main.go:99-107 | Such a key's cell has exactly the token column's DisplayWidth (the program's width model), given that a space is not wide. |
| `Render.FreqCellAligned` | main.go:88-107 | A count no higher than heighestFreq fills exactly the count column. |
| `Render.LabelsAlignedIff` | main.go:91-93 | The label line is as long as the borders exactly when the token column is at least 5 wide ("Token"). |
| `Render.TrimRight` | main.go:106 | Trimming trailing spaces gives a prefix that does not end in a space. |
| `Render.TrimSpaces` | main.go:106 | Trailing padding is removed exactly, down to a text that does not end in a space. |
| `Render.TrimPadded` | main.go:92 | A padded text that does not end in a space trims back to itself. |
| `Render.CellsReadBack` | main.go:106-107 | A row's cells read back: the token cell trims to the key, and the count cell trims to digits whose value is the count. |
| `Report.FrequencyReport` | main.go:40-108 | The report's keys are a permutation of the tally's keys, ordered by count, and its text is the specified table of the tally of all tokens. |
| `Report.RowsAligned` | main.go:58-108 | In a report from any valid tally, every row lines up with the header's columns under the program's width model and reads back to its key and count. |
| `Report.ReportRowsAligned` | main.go:41-108 | Every row of any report fills the token column under the program's width model. |
| `Report.CatHeadsTheRanking` | main.go:58-85 | For the tokens の 猫 猫 は 可愛い, the counts are の 1, 猫 2, は 1, 可愛い 1, longestTokenLen is 3, and 猫 comes first in every ranking. |
| `Report.RunOfFive` | main.go:58-67 | Five tokens with four distinct cleaned forms, one repeated, give counts 1, 2, 1, 1 and the longest raw length. |
| `Report.RunOfThree` | main.go:58-67 | Three tokens with two distinct cleaned forms, one repeated, give counts 1 and 2 and cover both raw lengths. |
| `Report.ScenarioCleans` | main.go:207-215 | の, 猫, は and 可愛い are left unchanged by cleaning. |

## Left out

- Command-line parsing (`parseFlags`): flags and exit codes are I/O.
- Subtitle discovery (`getFiles`, `checkIfSubFile`): this is a directory walk
  through the file system.
- Output-path resolution and `WriteToFile`: file-system I/O.
- The `verbose` logging: it does not affect the report.
- Reading subtitles with astisub and joining `subs.Items` into one string:
  these are calls into a library that is not part of this model. A file that
  fails to open is logged and then read through a nil value; that path is not
  modelled.
- The kagome tokenizer (`t.Wakati`): it is a foreign call. Its output for
  each file is the input `segs: seq<seq<string>>`.
- `width.LookupRune` and its East Asian Width tables: a Unicode data table
  behind a foreign call. Whether a code point is Wide or Fullwidth is the
  input `isWide: char -> bool`. Beyond their width model (below), the
  alignment lemmas assume only that a space is not wide.
- Render.DisplayWidth: the on-screen width of a string is modelled the way
  the program reckons it: one column per code point, plus one for each Wide
  or Fullwidth one. The lemmas built on it (`Render.TokenCellAligned`,
  `Report.RowsAligned`, `Report.ReportRowsAligned`) prove that the program's
  narrowing of the token width is right under that model, not on every
  terminal. Combining marks of class W (such as U+3099) count as wide but
  take no column of their own. East Asian Ambiguous characters that are not
  blacklisted (※, →, ○, ☆, ①) count as narrow but take two columns on a CJK
  terminal.
- Invalid UTF-8 in a token: Go's `range` and `RuneCountInString` turn every
  bad byte into U+FFFD, but the model's strings are already sequences of code
  points.
- `fmt.Sprintf` beyond what the table uses: the model covers the `%-Ns` and
  `%-Nd` verbs with the widths the program builds, including a spliced
  negative width, which cannot happen for valid tallies.
- Rank.SortByFreq: the tie order of the unstable `sort.Slice` is
  unspecified. The model sorts by insertion and promises only what
  `sort.Slice` promises: a permutation ordered by non-increasing count.
- Rank.CollectKeys: Go's randomised map iteration order is modelled by an
  arbitrary choice of the next key. Only the resulting multiset of keys is
  promised, not an order.
- Render.RenderTable: Go appends each row to `out` in turn. The model
  gathers the rows and appends them to the header once, which gives the same
  string.
- The word-list output mode and the Unicode-range token classifier: neither
  exists in this version of `main.go`.
