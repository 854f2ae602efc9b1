/** Rendering of the frequency table (main.go:87-108): a three-line header
    and one row per ranked key, each cell padded on the right with spaces.
    Go's `%-Ns` and `%-Nd` verbs pad their argument on the right to N code
    points and never truncate; that is PadRight below. */
module Render {
  import opened Aggregate

  /** strings.Repeat for a one-character string. */
  function Repeat(c: char, n: nat): (r: string)
    ensures |r| == n
    ensures forall i :: 0 <= i < n ==> r[i] == c
  {
    if n == 0 then [] else [c] + Repeat(c, n - 1)
  }

  /** Left-justified formatting to a minimum width: the text itself, then
      spaces up to `width` code points; a longer text is left as it is. */
  function PadRight(s: string, width: nat): (r: string)
    ensures |r| == if |s| < width then width else |s|
    ensures r[..|s|] == s
    ensures forall i :: |s| <= i < |r| ==> r[i] == ' '
  {
    if |s| < width then s + Repeat(' ', width - |s|) else s
  }

  /** The width that a format verb built as "%-" + strconv.Itoa(w) + "s"
      pads to. A negative w gives "%--3s", whose second '-' is read as a
      repeated flag, so the width is |w|; w = 0 gives "%-0s", where '0' is
      a flag as well and no width is set, which pads nothing. */
  function FormatWidth(w: int): (n: nat)
    ensures n == w || n == -w
  {
    if w < 0 then -w else w
  }

  function Digit(d: nat): (c: char)
    requires d < 10
    ensures '0' <= c <= '9'
  {
    ('0' as int + d) as char
  }

  function DigitValue(c: char): nat {
    if '0' <= c <= '9' then c as int - '0' as int else 0
  }

  /** strconv.Itoa on a count: its decimal digits without leading zeros. */
  function Decimal(n: nat): (r: string)
    ensures |r| >= 1
    ensures forall i :: 0 <= i < |r| ==> '0' <= r[i] <= '9'
    ensures r[0] == '0' ==> n == 0
  {
    if n < 10 then [Digit(n)] else Decimal(n / 10) + [Digit(n % 10)]
  }

  /** The number a string of decimal digits denotes. */
  function Value(s: string): nat {
    if s == [] then 0 else Value(s[..|s| - 1]) * 10 + DigitValue(s[|s| - 1])
  }

  /** Reading a count's decimal form back gives the count. */
  lemma {:induction false} DecimalRoundTrip(n: nat)
    ensures Value(Decimal(n)) == n
  {
    var s := Decimal(n);
    if n < 10 {
      assert s[..0] == [];
    } else {
      DecimalRoundTrip(n / 10);
      assert s[..|s| - 1] == Decimal(n / 10);
    }
  }

  /** A larger count never has a shorter decimal form. */
  lemma {:induction false} DecimalLengthMonotone(n: nat, m: nat)
    requires n <= m
    ensures |Decimal(n)| <= |Decimal(m)|
  {
    if n >= 10 {
      DecimalLengthMonotone(n / 10, m / 10);
    }
  }

  /** The number of code points of `s` that are East Asian Wide or Fullwidth. */
  function WideCount(s: string, isWide: char -> bool): (n: nat)
    ensures n <= |s|
  {
    if s == [] then 0 else WideCount(s[..|s| - 1], isWide) + (if isWide(s[|s| - 1]) then 1 else 0)
  }

  lemma {:induction false} WideCountAppend(x: string, y: string, isWide: char -> bool)
    ensures WideCount(x + y, isWide) == WideCount(x, isWide) + WideCount(y, isWide)
  {
    if y == [] {
      assert x + y == x;
    } else {
      assert (x + y)[..|x + y| - 1] == x + y[..|y| - 1];
      WideCountAppend(x, y[..|y| - 1], isWide);
    }
  }

  lemma {:induction false} WideCountSpaces(n: nat, isWide: char -> bool)
    requires !isWide(' ')
    ensures WideCount(Repeat(' ', n), isWide) == 0
  {
    if n > 0 {
      var r := Repeat(' ', n);
      assert r[..n - 1] == Repeat(' ', n - 1);
      WideCountSpaces(n - 1, isWide);
    }
  }

  /** The columns a string takes on a terminal, under the width model the
      program itself uses: one per code point, and one more for each code
      point `isWide` accepts. A real terminal can differ: combining marks of
      class W take no column of their own, and East Asian Ambiguous
      characters such as ※ or → may take two. */
  function DisplayWidth(s: string, isWide: char -> bool): nat {
    |s| + WideCount(s, isWide)
  }

  function TokenColumnWidth(longestTokenLen: nat): nat {
    2 * longestTokenLen
  }

  function FreqColumnWidth(highestFreq: nat): nat {
    |Decimal(highestFreq)| + 4
  }

  /** The first and third header lines. */
  function Border(tColW: nat, fColW: nat): string {
    "|" + Repeat('-', tColW) + "|" + Repeat('-', fColW) + "|\n"
  }

  /** The second header line. */
  function Labels(tColW: nat, fColW: nat): string {
    "|" + PadRight("Token", tColW) + "|" + PadRight("Freq", fColW) + "|\n"
  }

  /** The token cell: padded to the token column width less one for every
      wide code point, since a wide code point fills two columns. */
  function TokenCell(k: string, tColW: nat, isWide: char -> bool): string {
    PadRight(k, FormatWidth(tColW - WideCount(k, isWide)))
  }

  function FreqCell(count: nat, fColW: nat): string {
    PadRight(Decimal(count), fColW)
  }

  function Row(k: string, count: nat, tColW: nat, fColW: nat, isWide: char -> bool): string {
    "|" + TokenCell(k, tColW, isWide) + "|" + FreqCell(count, fColW) + "|\n"
  }

  /** The report's lines: border, labels, border, then one row per key in
      the order given. */
  function TableLines(frequencies: map<string, nat>, keys: seq<string>, longestTokenLen: nat,
                      highestFreq: nat, isWide: char -> bool): (lines: seq<string>)
    ensures |lines| == 3 + |keys|
  {
    var tColW := TokenColumnWidth(longestTokenLen);
    var fColW := FreqColumnWidth(highestFreq);
    Header(tColW, fColW) + Rows(frequencies, keys, tColW, fColW, isWide)
  }

  function Header(tColW: nat, fColW: nat): seq<string> {
    [Border(tColW, fColW), Labels(tColW, fColW), Border(tColW, fColW)]
  }

  /** One row per key, in the order of `keys`. */
  function Rows(frequencies: map<string, nat>, keys: seq<string>, tColW: nat, fColW: nat,
                isWide: char -> bool): (rows: seq<string>)
    ensures |rows| == |keys|
  {
    if keys == [] then []
    else
      var last := keys[|keys| - 1];
      Rows(frequencies, keys[..|keys| - 1], tColW, fColW, isWide) + [Row(last, Lookup(frequencies, last), tColW, fColW, isWide)]
  }

  /** The text of a list of lines, one after the other. */
  function Concat(lines: seq<string>): string {
    if lines == [] then [] else Concat(lines[..|lines| - 1]) + lines[|lines| - 1]
  }

  lemma {:induction false} ConcatJoin(a: seq<string>, b: seq<string>)
    ensures Concat(a + b) == Concat(a) + Concat(b)
  {
    if b == [] {
      assert a + b == a;
    } else {
      assert (a + b)[..|a + b| - 1] == a + b[..|b| - 1];
      ConcatJoin(a, b[..|b| - 1]);
    }
  }

  /** Building `out`: the header, then one row per key. The rows are
      gathered first and appended to the header in one step, which gives the
      same string as appending each row to `out` in turn. */
  method RenderTable(frequencies: map<string, nat>, keys: seq<string>, longestTokenLen: nat,
                     highestFreq: nat, isWide: char -> bool) returns (out: string)
    ensures out == Concat(TableLines(frequencies, keys, longestTokenLen, highestFreq, isWide))
  {
    var tColW := 2 * longestTokenLen;
    var fColW := |Decimal(highestFreq)| + 4;
    var header := RenderHeader(tColW, fColW);
    var rows := RenderRows(frequencies, keys, tColW, fColW, isWide);
    out := header + rows;
    ConcatJoin(Header(tColW, fColW), Rows(frequencies, keys, tColW, fColW, isWide));
  }

  /** The three header lines. */
  method RenderHeader(tColW: nat, fColW: nat) returns (out: string)
    ensures out == Concat(Header(tColW, fColW))
  {
    out := "";
    out := out + Border(tColW, fColW);
    out := out + Labels(tColW, fColW);
    out := out + Border(tColW, fColW);
    HeaderConcat(tColW, fColW);
  }

  /** The loop over the ranked keys, one row each. */
  method RenderRows(frequencies: map<string, nat>, keys: seq<string>, tColW: nat, fColW: nat,
                    isWide: char -> bool) returns (out: string)
    ensures out == Concat(Rows(frequencies, keys, tColW, fColW, isWide))
  {
    out := "";
    for i := 0 to |keys|
      invariant out == Concat(Rows(frequencies, keys[..i], tColW, fColW, isWide))
    {
      var row := RenderRow(frequencies, keys[i], tColW, fColW, isWide);
      RowsExtend(frequencies, keys, i, tColW, fColW, isWide);
      ConcatExtend(Rows(frequencies, keys[..i], tColW, fColW, isWide), row);
      out := out + row;
    }
    assert keys[..|keys|] == keys;
  }

  lemma RowsExtend(frequencies: map<string, nat>, keys: seq<string>, i: nat, tColW: nat, fColW: nat,
                   isWide: char -> bool)
    requires i < |keys|
    ensures Rows(frequencies, keys[..i + 1], tColW, fColW, isWide)
         == Rows(frequencies, keys[..i], tColW, fColW, isWide)
            + [Row(keys[i], Lookup(frequencies, keys[i]), tColW, fColW, isWide)]
  {
    assert keys[..i + 1][..i] == keys[..i];
  }

  lemma ConcatExtend(lines: seq<string>, line: string)
    ensures Concat(lines + [line]) == Concat(lines) + line
  {
    assert (lines + [line])[..|lines|] == lines;
  }

  lemma HeaderConcat(tColW: nat, fColW: nat)
    ensures Concat(Header(tColW, fColW)) == "" + Border(tColW, fColW) + Labels(tColW, fColW) + Border(tColW, fColW)
  {
    var h := Header(tColW, fColW);
    assert h[..1][..0] == [];
    assert Concat(h[..1]) == h[0];
    assert h[..2][..1] == h[..1];
    assert Concat(h[..2]) == h[0] + h[1];
    assert h[..3][..2] == h[..2];
    assert h[..3] == h;
  }

  /** One row: count the wide code points of the key (shortenBy), then
      format the key to the narrowed width and its count to the count
      column's width. */
  method RenderRow(frequencies: map<string, nat>, k: string, tColW: nat, fColW: nat,
                   isWide: char -> bool) returns (row: string)
    ensures row == Row(k, Lookup(frequencies, k), tColW, fColW, isWide)
  {
    var shortenBy := 0;
    for j := 0 to |k|
      invariant shortenBy == WideCount(k[..j], isWide)
    {
      assert k[..j + 1][..j] == k[..j];
      if isWide(k[j]) {
        shortenBy := shortenBy + 1;
      }
    }
    assert k[..|k|] == k;
    var curTColW := FormatWidth(tColW - shortenBy);
    row := "|" + PadRight(k, curTColW) + "|" + PadRight(Decimal(Lookup(frequencies, k)), fColW) + "|\n";
  }

  /** The token column is wide enough for any token no longer than the
      longest one: the per-row width 2 * longestTokenLen - shortenBy is
      never negative, and never below the token's length. */
  lemma TokenWidthNotNegative(k: string, longestTokenLen: nat, isWide: char -> bool)
    requires |k| <= longestTokenLen
    ensures TokenColumnWidth(longestTokenLen) - WideCount(k, isWide) >= |k|
    ensures FormatWidth(TokenColumnWidth(longestTokenLen) - WideCount(k, isWide))
         == TokenColumnWidth(longestTokenLen) - WideCount(k, isWide)
  {
  }

  /** Token cells line up: such a token's cell fills exactly the token
      column on screen. */
  lemma TokenCellAligned(k: string, longestTokenLen: nat, isWide: char -> bool)
    requires |k| <= longestTokenLen
    requires !isWide(' ')
    ensures DisplayWidth(TokenCell(k, TokenColumnWidth(longestTokenLen), isWide), isWide)
         == TokenColumnWidth(longestTokenLen)
  {
    var tColW := TokenColumnWidth(longestTokenLen);
    var w := tColW - WideCount(k, isWide);
    var cell := TokenCell(k, tColW, isWide);
    if |k| < w {
      assert cell == k + Repeat(' ', w - |k|);
      WideCountAppend(k, Repeat(' ', w - |k|), isWide);
      WideCountSpaces(w - |k|, isWide);
    } else {
      assert cell == k;
    }
  }

  /** Count cells line up: a count no higher than the highest one fills
      exactly the count column. */
  lemma FreqCellAligned(count: nat, highestFreq: nat)
    requires count <= highestFreq
    ensures |FreqCell(count, FreqColumnWidth(highestFreq))| == FreqColumnWidth(highestFreq)
  {
    DecimalLengthMonotone(count, highestFreq);
  }

  /** The label line is as long as the borders exactly when the token column
      can hold the word "Token"; a table whose tokens are all one code point
      long (column width 2) has a misaligned header. */
  lemma LabelsAlignedIff(tColW: nat, highestFreq: nat)
    ensures |Labels(tColW, FreqColumnWidth(highestFreq))| == |Border(tColW, FreqColumnWidth(highestFreq))|
        <==> tColW >= 5
  {
  }

  /** `s` without its trailing spaces. */
  function TrimRight(s: string): (r: string)
    ensures |r| <= |s| && r == s[..|r|]
    ensures r == [] || r[|r| - 1] != ' '
  {
    if s != [] && s[|s| - 1] == ' ' then TrimRight(s[..|s| - 1]) else s
  }

  lemma {:induction false} TrimSpaces(s: string, n: nat)
    requires s == [] || s[|s| - 1] != ' '
    ensures TrimRight(s + Repeat(' ', n)) == s
  {
    if n == 0 {
      assert s + Repeat(' ', 0) == s;
    } else {
      var t := s + Repeat(' ', n);
      assert t[|t| - 1] == ' ';
      assert t[..|t| - 1] == s + Repeat(' ', n - 1);
      TrimSpaces(s, n - 1);
    }
  }

  lemma TrimPadded(s: string, width: nat)
    requires s == [] || s[|s| - 1] != ' '
    ensures TrimRight(PadRight(s, width)) == s
  {
    if |s| < width {
      TrimSpaces(s, width - |s|);
    } else {
      TrimSpaces(s, 0);
      assert s + Repeat(' ', 0) == s;
    }
  }

  /** A row can be read back: trimming the trailing spaces of its cells gives
      the token (when it does not end in a space) and the decimal form of its
      count. */
  lemma CellsReadBack(k: string, count: nat, tColW: nat, fColW: nat, isWide: char -> bool)
    requires k == [] || k[|k| - 1] != ' '
    ensures TrimRight(TokenCell(k, tColW, isWide)) == k
    ensures Value(TrimRight(FreqCell(count, fColW))) == count
  {
    TrimPadded(k, FormatWidth(tColW - WideCount(k, isWide)));
    TrimPadded(Decimal(count), fColW);
    DecimalRoundTrip(count);
  }
}
