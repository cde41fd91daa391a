/**
 * The ECMAScript string primitives the loader relies on: `split` on a single
 * character class, `split(/\s+/)`, `join`, `trim`, `includes`, `startsWith`
 * and `endsWith`. Strings are sequences of characters.
 */
module Text {

  /** ECMAScript WhiteSpace or LineTerminator: what `\s`, `trim()` and `parseInt` skip. */
  predicate IsSpace(c: char) {
    var n := c as int;
    n == 0x09 || n == 0x0A || n == 0x0B || n == 0x0C || n == 0x0D || n == 0x20
    || n == 0xA0 || n == 0x1680 || (0x2000 <= n <= 0x200A)
    || n == 0x2028 || n == 0x2029 || n == 0x202F || n == 0x205F
    || n == 0x3000 || n == 0xFEFF
  }

  /** The class `[\r\n]`. */
  predicate IsLineBreak(c: char) {
    c == '\r' || c == '\n'
  }

  /** The single separator of `split('\n')`. */
  predicate IsNewline(c: char) {
    c == '\n'
  }

  /** A LineTerminator: the characters `.` does not match in a regular expression. */
  predicate IsLineTerminator(c: char) {
    c == '\n' || c == '\r' || c as int == 0x2028 || c as int == 0x2029
  }

  predicate NoneMatch(s: string, sep: char -> bool) {
    forall j :: 0 <= j < |s| ==> !sep(s[j])
  }

  /** No line of `lines` holds a `\r` or a `\n`. */
  predicate NoLineBreaks(lines: seq<string>) {
    forall k :: 0 <= k < |lines| ==> NoneMatch(lines[k], IsLineBreak)
  }

  predicate OccursAt(s: string, m: string, i: nat) {
    i + |m| <= |s| && s[i..i + |m|] == m
  }

  /** `s.includes(m)` and `s.indexOf(m) !== -1`. */
  predicate Contains(s: string, m: string) {
    exists i: nat :: i <= |s| && OccursAt(s, m, i)
  }

  /** `s.startsWith(p)`. */
  predicate StartsWith(s: string, p: string) {
    |p| <= |s| && s[..|p|] == p
  }

  /** `s.endsWith(p)`. */
  predicate EndsWith(s: string, p: string) {
    |p| <= |s| && s[|s| - |p|..] == p
  }

  /** `/\S+/.test(s)`: some character is not white space. */
  predicate HasNonSpace(s: string) {
    exists j :: 0 <= j < |s| && !IsSpace(s[j])
  }

  /** Index of the first character matching `sep`, or `|s|` when there is none. */
  function FirstMatch(s: string, sep: char -> bool): (i: nat)
    ensures i <= |s|
    ensures NoneMatch(s[..i], sep)
    ensures i < |s| ==> sep(s[i])
  {
    if |s| == 0 || sep(s[0]) then 0 else 1 + FirstMatch(s[1..], sep)
  }

  /** `s.split(c)` where `c` is one character or a one-character class. */
  function Split(s: string, sep: char -> bool): (pieces: seq<string>)
    ensures |pieces| >= 1
    decreases |s|
  {
    var i := FirstMatch(s, sep);
    if i == |s| then [s] else [s[..i]] + Split(s[i + 1..], sep)
  }

  /** `pieces.join(glue)`. */
  function Join(pieces: seq<string>, glue: string): string {
    if |pieces| == 0 then ""
    else if |pieces| == 1 then pieces[0]
    else pieces[0] + glue + Join(pieces[1..], glue)
  }

  function NonEmpty(pieces: seq<string>): (r: seq<string>)
    ensures forall k :: 0 <= k < |r| ==> r[k] != ""
  {
    if |pieces| == 0 then []
    else if pieces[0] == "" then NonEmpty(pieces[1..])
    else [pieces[0]] + NonEmpty(pieces[1..])
  }

  /**
   * `s.split(/\s+/)`: a run of white space separates two pieces, so the only
   * empty pieces are a first one (leading white space) and a last one
   * (trailing white space).
   */
  function SplitSpaces(s: string): (pieces: seq<string>)
    ensures |pieces| >= 1
  {
    DropInnerEmpty(Split(s, IsSpace))
  }

  /** The pieces with every empty one between the first and the last dropped. */
  function DropInnerEmpty(p: seq<string>): (r: seq<string>)
    requires |p| >= 1
    ensures |r| >= 1
  {
    if |p| <= 2 then p else [p[0]] + NonEmpty(p[1..|p| - 1]) + [p[|p| - 1]]
  }

  function TrimStart(s: string): (r: string)
    ensures |r| > 0 ==> !IsSpace(r[0])
  {
    if |s| > 0 && IsSpace(s[0]) then TrimStart(s[1..]) else s
  }

  function TrimEnd(s: string): (r: string)
    ensures |r| > 0 ==> !IsSpace(r[|r| - 1])
  {
    if |s| > 0 && IsSpace(s[|s| - 1]) then TrimEnd(s[..|s| - 1]) else s
  }

  /** `s.trim()`. */
  function Trim(s: string): string {
    TrimEnd(TrimStart(s))
  }

  /** `s.slice(1)`. */
  function DropFirst(s: string): string {
    if |s| == 0 then "" else s[1..]
  }

  // ---------------------------------------------------------------------
  // Splitting what was joined

  /** Joining separator-free pieces with one separator character and splitting again gives the pieces back. */
  lemma {:induction false} SplitJoin(pieces: seq<string>, sep: char -> bool, c: char)
    requires |pieces| >= 1 && sep(c)
    requires forall k :: 0 <= k < |pieces| ==> NoneMatch(pieces[k], sep)
    ensures Split(Join(pieces, [c]), sep) == pieces
  {
    var p := pieces[0];
    NoMatchFirst(p, sep);
    if |pieces| == 1 {
    } else {
      var rest := Join(pieces[1..], [c]);
      var s := p + [c] + rest;
      assert Join(pieces, [c]) == s;
      FirstMatchAfterPrefix(p, sep, c, rest);
      assert s[..|p|] == p && s[|p| + 1..] == rest;
      SplitJoin(pieces[1..], sep, c);
      assert pieces == [p] + pieces[1..];
    }
  }

  /** The pieces of each text in turn. */
  function SplitEach(texts: seq<string>, sep: char -> bool): seq<string> {
    if |texts| == 0 then [] else Split(texts[0], sep) + SplitEach(texts[1..], sep)
  }

  /** Splitting texts joined by one separator character splits each text on its own. */
  lemma {:induction false} SplitJoined(texts: seq<string>, sep: char -> bool, c: char)
    requires |texts| >= 1 && sep(c)
    ensures Split(Join(texts, [c]), sep) == SplitEach(texts, sep)
  {
    if |texts| == 1 {
      assert SplitEach(texts, sep) == Split(texts[0], sep) + SplitEach([], sep);
    } else {
      SplitGlue(texts[0], c, Join(texts[1..], [c]), sep);
      SplitJoined(texts[1..], sep, c);
    }
  }

  /** A separator between two texts splits each on its own. */
  lemma {:induction false} SplitGlue(a: string, c: char, b: string, sep: char -> bool)
    requires sep(c)
    ensures Split(a + [c] + b, sep) == Split(a, sep) + Split(b, sep)
    decreases |a|
  {
    var s := a + [c] + b;
    var i := FirstMatch(a, sep);
    assert FirstMatch(s, sep) == i by {
      assert s[..i] == a[..i];
      FirstMatchAt(s, sep, i);
    }
    if i == |a| {
      assert a[..i] == a && s[i + 1..] == b;
    } else {
      assert s[i + 1..] == a[i + 1..] + [c] + b;
      SplitGlue(a[i + 1..], c, b, sep);
    }
  }

  /** No piece of a split holds a separator. */
  lemma {:induction false} SplitPieces(s: string, sep: char -> bool)
    ensures forall k :: 0 <= k < |Split(s, sep)| ==> NoneMatch(Split(s, sep)[k], sep)
    decreases |s|
  {
    var i := FirstMatch(s, sep);
    if i < |s| {
      SplitPieces(s[i + 1..], sep);
      var p := Split(s, sep);
      assert p == [s[..i]] + Split(s[i + 1..], sep);
      forall k | 1 <= k < |p| ensures NoneMatch(p[k], sep) {
        assert p[k] == Split(s[i + 1..], sep)[k - 1];
      }
    }
  }

  /** The first match is at `i` when `s[i]` matches and nothing before it does. */
  lemma FirstMatchAt(s: string, sep: char -> bool, i: nat)
    requires i < |s| && sep(s[i]) && NoneMatch(s[..i], sep)
    ensures FirstMatch(s, sep) == i
  {
  }

  /** `line` without one trailing carriage return: the text of a line ended by `\r\n`. */
  function Chomp(line: string): (r: string)
    ensures r == line || r + "\r" == line
  {
    if |line| > 0 && line[|line| - 1] == '\r' then line[..|line| - 1] else line
  }

  function ChompAll(lines: seq<string>): (r: seq<string>)
    ensures |r| == |lines| && forall k :: 0 <= k < |lines| ==> r[k] == Chomp(lines[k])
  {
    seq(|lines|, k requires 0 <= k < |lines| => Chomp(lines[k]))
  }

  /** Each line ends in at most one carriage return and holds no other line break. */
  predicate CleanLines(lines: seq<string>) {
    forall k :: 0 <= k < |lines| ==> NoneMatch(Chomp(lines[k]), IsLineBreak)
  }

  lemma ChompAllSlice(lines: seq<string>, i: nat, j: nat)
    requires i <= j <= |lines|
    ensures ChompAll(lines)[i..j] == ChompAll(lines[i..j])
  {
    assert forall k :: 0 <= k < j - i ==> ChompAll(lines)[i..j][k] == ChompAll(lines[i..j])[k];
  }

  /** A line with at most a trailing `\r` splits on `[\r\n]` into its text, and an empty piece after a `\r`. */
  lemma ChompSplit(line: string)
    requires NoneMatch(Chomp(line), IsLineBreak)
    ensures Split(line, IsLineBreak) == [Chomp(line)] || Split(line, IsLineBreak) == [Chomp(line), ""]
  {
    var t := Chomp(line);
    NoMatchFirst(t, IsLineBreak);
    if t != line {
      assert line == t + ['\r'] + "";
      SplitGlue(t, '\r', "", IsLineBreak);
    }
  }

  /** Lines without carriage returns are their own text. */
  lemma ChompPlain(lines: seq<string>)
    requires NoLineBreaks(lines)
    ensures CleanLines(lines) && ChompAll(lines) == lines
  {
    forall k | 0 <= k < |lines| ensures Chomp(lines[k]) == lines[k] {
      if |lines[k]| > 0 {
        assert !IsLineBreak(lines[k][|lines[k]| - 1]);
      }
    }
  }

  /** Dropping a trailing `\r` keeps every occurrence of a text that does not end in `\r`. */
  lemma ChompKeeps(line: string, m: string)
    requires Contains(line, m) && |m| > 0 && m[|m| - 1] != '\r'
    ensures Contains(Chomp(line), m)
  {
    var p: nat :| p <= |line| && OccursAt(line, m, p);
    var t := Chomp(line);
    if t != line {
      assert line[p..p + |m|][|m| - 1] == line[p + |m| - 1];
      assert p + |m| <= |t|;
      assert t[p..p + |m|] == line[p..p + |m|];
      assert OccursAt(t, m, p);
    }
  }

  lemma NoMatchFirst(p: string, sep: char -> bool)
    requires NoneMatch(p, sep)
    ensures FirstMatch(p, sep) == |p|
  {
    var i := FirstMatch(p, sep);
    if i < |p| {
      assert sep(p[i]);
    }
  }

  lemma FirstMatchAfterPrefix(p: string, sep: char -> bool, c: char, rest: string)
    requires NoneMatch(p, sep) && sep(c)
    ensures FirstMatch(p + [c] + rest, sep) == |p|
  {
    var s := p + [c] + rest;
    assert s[|p|] == c;
  }

  // ---------------------------------------------------------------------
  // Where an occurrence lies after a split

  /** An occurrence of a separator-free text covers no separator. */
  lemma OccurrenceAvoids(s: string, m: string, sep: char -> bool, p: nat)
    requires OccursAt(s, m, p) && NoneMatch(m, sep)
    ensures forall j :: p <= j < p + |m| ==> !sep(s[j])
  {
    forall j | p <= j < p + |m| ensures !sep(s[j]) {
      assert s[j] == m[j - p];
    }
  }

  lemma SliceOfPrefix(s: string, n: nat, a: nat, len: nat)
    requires a + len <= n <= |s|
    ensures s[..n][a..a + len] == s[a..a + len]
  {
  }

  lemma SliceOfSuffix(s: string, d: nat, a: nat, len: nat)
    requires d + a + len <= |s|
    ensures s[d..][a..a + len] == s[d + a..d + a + len]
  {
  }

  /** The pieces after the first separator are the split of the rest. */
  lemma SplitAtFirst(s: string, sep: char -> bool)
    requires FirstMatch(s, sep) < |s|
    ensures Split(s, sep) == [s[..FirstMatch(s, sep)]] + Split(s[FirstMatch(s, sep) + 1..], sep)
  {
  }

  /** An occurrence that ends before the first separator lies in the first piece. */
  lemma OccursInFirstPiece(s: string, m: string, sep: char -> bool, p: nat)
    requires OccursAt(s, m, p) && p + |m| <= FirstMatch(s, sep)
    ensures OccursAt(s[..FirstMatch(s, sep)], m, p)
  {
    SliceOfPrefix(s, FirstMatch(s, sep), p, |m|);
  }

  /** A separator-free occurrence that does not end before the first separator lies after it. */
  lemma OccursAfterFirst(s: string, m: string, sep: char -> bool, p: nat)
    requires OccursAt(s, m, p) && NoneMatch(m, sep)
    requires FirstMatch(s, sep) < p + |m|
    ensures FirstMatch(s, sep) < p
    ensures OccursAt(s[FirstMatch(s, sep) + 1..], m, p - FirstMatch(s, sep) - 1)
  {
    var i := FirstMatch(s, sep);
    OccurrenceAvoids(s, m, sep, p);
    SliceOfSuffix(s, i + 1, p - i - 1, |m|);
  }

  predicate InSomePiece(pieces: seq<string>, m: string) {
    exists k :: 0 <= k < |pieces| && Contains(pieces[k], m)
  }

  lemma InFirstPiece(first: string, rest: seq<string>, m: string, p: nat)
    requires OccursAt(first, m, p)
    ensures InSomePiece([first] + rest, m)
  {
    assert ([first] + rest)[0] == first;
  }

  lemma InLaterPiece(first: string, rest: seq<string>, m: string)
    requires InSomePiece(rest, m)
    ensures InSomePiece([first] + rest, m)
  {
    var k :| 0 <= k < |rest| && Contains(rest[k], m);
    assert ([first] + rest)[k + 1] == rest[k];
  }

  /** A separator-free text found at `p` in `s` is found inside one of the pieces of `s`. */
  lemma {:induction false} OccursInPiece(s: string, m: string, sep: char -> bool, p: nat)
    requires OccursAt(s, m, p) && NoneMatch(m, sep)
    ensures InSomePiece(Split(s, sep), m)
    decreases |s|
  {
    var i := FirstMatch(s, sep);
    if i == |s| {
      InFirstPiece(s, [], m, p);
    } else {
      SplitAtFirst(s, sep);
      var rest := s[i + 1..];
      if p + |m| <= i {
        OccursInFirstPiece(s, m, sep, p);
        InFirstPiece(s[..i], Split(rest, sep), m, p);
      } else {
        OccursAfterFirst(s, m, sep, p);
        OccursInPiece(rest, m, sep, p - i - 1);
        InLaterPiece(s[..i], Split(rest, sep), m);
      }
    }
  }

  /** A separator-free text found in `s` is found inside one of the pieces of `s`. */
  lemma ContainsInPiece(s: string, m: string, sep: char -> bool)
    requires Contains(s, m) && NoneMatch(m, sep)
    ensures exists k :: 0 <= k < |Split(s, sep)| && Contains(Split(s, sep)[k], m)
  {
    var p: nat :| p <= |s| && OccursAt(s, m, p);
    OccursInPiece(s, m, sep, p);
  }

  /** A split yields one piece, the whole text, exactly when no separator occurs. */
  lemma SplitOnePiece(s: string, sep: char -> bool)
    ensures |Split(s, sep)| == 1 <==> NoneMatch(s, sep)
    ensures NoneMatch(s, sep) ==> Split(s, sep) == [s]
  {
    var i := FirstMatch(s, sep);
    if i == |s| {
      assert s[..i] == s;
    } else {
      assert |Split(s[i + 1..], sep)| >= 1;
    }
  }

  /** Whatever contains `p + m` contains `m`. */
  lemma ContainsTail(s: string, p: string, m: string)
    requires Contains(s, p + m)
    ensures Contains(s, m)
  {
    var i: nat :| i <= |s| && OccursAt(s, p + m, i);
    assert s[i + |p|..i + |p| + |m|] == (p + m)[|p|..];
    assert OccursAt(s, m, i + |p|);
  }

  // ---------------------------------------------------------------------
  // Tokens separated by runs of white space

  /** Every character matches `sep`; the empty text does too. */
  predicate AllMatch(s: string, sep: char -> bool) {
    forall j :: 0 <= j < |s| ==> sep(s[j])
  }

  predicate AllSpace(s: string) {
    AllMatch(s, IsSpace)
  }

  /** Non-empty runs of separators: what may stand between two tokens. */
  predicate Runs(gaps: seq<string>, sep: char -> bool) {
    forall k :: 0 <= k < |gaps| ==> |gaps[k]| > 0 && AllMatch(gaps[k], sep)
  }

  /** Non-empty runs of white space. */
  predicate Gaps(gaps: seq<string>) {
    Runs(gaps, IsSpace)
  }

  /** `tokens[0] + gaps[0] + tokens[1] + ... + gaps[n - 1] + tokens[n]`. */
  function Spaced(tokens: seq<string>, gaps: seq<string>): string
    requires |tokens| >= 1 && |gaps| == |tokens| - 1
  {
    if |tokens| == 1 then tokens[0] else tokens[0] + gaps[0] + Spaced(tokens[1..], gaps[1..])
  }

  function Blanks(n: nat): (r: seq<string>)
    ensures |r| == n && forall k :: 0 <= k < n ==> r[k] == ""
  {
    if n == 0 then [] else [""] + Blanks(n - 1)
  }

  /**
   * The pieces of a split on single separator characters over spaced tokens:
   * each token, then one empty piece for every character of the run after it
   * but the first.
   */
  function Spread(tokens: seq<string>, gaps: seq<string>): seq<string>
    requires |tokens| >= 1 && |gaps| == |tokens| - 1
    requires forall k :: 0 <= k < |gaps| ==> |gaps[k]| > 0
  {
    if |tokens| == 1 then [tokens[0]]
    else [tokens[0]] + Blanks(|gaps[0]| - 1) + Spread(tokens[1..], gaps[1..])
  }

  /** Each character of a run of separators starts one empty piece. */
  lemma {:induction false} RunSplit(g: string, rest: string, sep: char -> bool)
    requires AllMatch(g, sep)
    ensures Split(g + rest, sep) == Blanks(|g|) + Split(rest, sep)
  {
    if |g| > 0 {
      var r := g[1..] + rest;
      assert Split(g + rest, sep) == [""] + Split(r, sep) by {
        assert g + rest == "" + [g[0]] + r;
        SplitGlue("", g[0], r, sep);
        SplitWhole("", sep);
      }
      assert Split(r, sep) == Blanks(|g| - 1) + Split(rest, sep) by {
        assert AllMatch(g[1..], sep) by {
          assert forall j :: 0 <= j < |g[1..]| ==> g[1..][j] == g[j + 1];
        }
        RunSplit(g[1..], rest, sep);
      }
    } else {
      assert g + rest == rest;
    }
  }

  /** A text without separators is one piece. */
  lemma SplitWhole(t: string, sep: char -> bool)
    requires NoneMatch(t, sep)
    ensures Split(t, sep) == [t]
  {
    NoMatchFirst(t, sep);
  }

  /** A token, then a run of separators, then the rest: the token, one empty piece per extra separator, then the rest's pieces. */
  lemma TokenRun(t: string, g: string, later: string, sep: char -> bool)
    requires NoneMatch(t, sep) && |g| > 0 && AllMatch(g, sep)
    ensures Split(t + g + later, sep) == [t] + Blanks(|g| - 1) + Split(later, sep)
  {
    var r := g[1..] + later;
    assert Split(t + g + later, sep) == [t] + Split(r, sep) by {
      assert t + g + later == t + [g[0]] + r;
      SplitGlue(t, g[0], r, sep);
      SplitWhole(t, sep);
    }
    assert Split(r, sep) == Blanks(|g| - 1) + Split(later, sep) by {
      assert AllMatch(g[1..], sep) by {
        assert forall j :: 0 <= j < |g[1..]| ==> g[1..][j] == g[j + 1];
      }
      RunSplit(g[1..], later, sep);
    }
  }

  /** Splitting spaced tokens on single separator characters gives `Spread`. */
  lemma {:induction false} SpacedSplit(tokens: seq<string>, gaps: seq<string>, sep: char -> bool)
    requires |tokens| >= 1 && |gaps| == |tokens| - 1 && Runs(gaps, sep)
    requires forall k :: 0 <= k < |tokens| ==> NoneMatch(tokens[k], sep)
    ensures Split(Spaced(tokens, gaps), sep) == Spread(tokens, gaps)
  {
    if |tokens| == 1 {
      SplitWhole(tokens[0], sep);
    } else {
      var later := Spaced(tokens[1..], gaps[1..]);
      assert Spaced(tokens, gaps) == tokens[0] + gaps[0] + later;
      assert Split(tokens[0] + gaps[0] + later, sep) == [tokens[0]] + Blanks(|gaps[0]| - 1) + Split(later, sep) by {
        TokenRun(tokens[0], gaps[0], later, sep);
      }
      assert Split(later, sep) == Spread(tokens[1..], gaps[1..]) by {
        SpacedSplit(tokens[1..], gaps[1..], sep);
      }
    }
  }

  lemma {:induction false} NonEmptyAppend(a: seq<string>, b: seq<string>)
    ensures NonEmpty(a + b) == NonEmpty(a) + NonEmpty(b)
  {
    if |a| > 0 {
      assert (a + b)[1..] == a[1..] + b;
      NonEmptyAppend(a[1..], b);
    } else {
      assert a + b == b;
    }
  }

  lemma {:induction false} NonEmptyBlanks(n: nat)
    ensures NonEmpty(Blanks(n)) == []
  {
    if n > 0 {
      assert Blanks(n)[1..] == Blanks(n - 1);
      NonEmptyBlanks(n - 1);
    }
  }

  /** Without its empty pieces, `Spread` is the tokens; its first and last pieces are the first and last tokens. */
  lemma {:induction false} SpreadTokens(tokens: seq<string>, gaps: seq<string>)
    requires |tokens| >= 1 && |gaps| == |tokens| - 1
    requires forall k :: 0 <= k < |gaps| ==> |gaps[k]| > 0
    requires forall k :: 0 <= k < |tokens| ==> tokens[k] != ""
    ensures var p := Spread(tokens, gaps); p[0] == tokens[0] && p[|p| - 1] == tokens[|tokens| - 1]
    ensures NonEmpty(Spread(tokens, gaps)) == tokens
  {
    if |tokens| > 1 {
      var blanks := Blanks(|gaps[0]| - 1);
      var later := Spread(tokens[1..], gaps[1..]);
      SpreadTokens(tokens[1..], gaps[1..]);
      NonEmptyAppend([tokens[0]] + blanks, later);
      NonEmptyAppend([tokens[0]], blanks);
      NonEmptyBlanks(|gaps[0]| - 1);
      assert ([tokens[0]] + blanks + later)[1..] == blanks + later;
      assert NonEmpty([tokens[0]]) == [tokens[0]] by {
        assert [tokens[0]][1..] == [];
      }
      assert tokens == [tokens[0]] + tokens[1..];
    }
  }

  /** Dropping the inner empty pieces of a sequence that neither starts nor ends with one drops them all. */
  lemma {:induction false} NonEmptyEnds(p: seq<string>)
    requires |p| >= 1 && p[0] != "" && p[|p| - 1] != ""
    ensures DropInnerEmpty(p) == NonEmpty(p)
  {
    var first, last := [p[0]], [p[|p| - 1]];
    assert NonEmpty(first) == first && NonEmpty(last) == last by {
      assert first[1..] == [] && last[1..] == [];
    }
    if |p| > 2 {
      var mid := p[1..|p| - 1];
      assert p == first + mid + last;
      NonEmptyAppend(first + mid, last);
      NonEmptyAppend(first, mid);
    } else if |p| == 2 {
      assert p == first + last;
      NonEmptyAppend(first, last);
    }
  }

  /** `split(/\s+/)` gives back the tokens whatever runs of white space separate them. */
  lemma SpacedWords(tokens: seq<string>, gaps: seq<string>)
    requires |tokens| >= 1 && |gaps| == |tokens| - 1 && Gaps(gaps)
    requires forall k :: 0 <= k < |tokens| ==> tokens[k] != "" && NoneMatch(tokens[k], IsSpace)
    ensures SplitSpaces(Spaced(tokens, gaps)) == tokens
  {
    var p := Split(Spaced(tokens, gaps), IsSpace);
    assert p == Spread(tokens, gaps) by {
      SpacedSplit(tokens, gaps, IsSpace);
    }
    SpreadTokens(tokens, gaps);
    NonEmptyEnds(p);
  }

  /** Spaced non-empty tokens start with the first token's first character and end with the last token's last. */
  lemma {:induction false} SpacedEnds(tokens: seq<string>, gaps: seq<string>)
    requires |tokens| >= 1 && |gaps| == |tokens| - 1
    requires forall k :: 0 <= k < |tokens| ==> tokens[k] != ""
    ensures var s := Spaced(tokens, gaps); var last := tokens[|tokens| - 1];
      |s| > 0 && s[0] == tokens[0][0] && s[|s| - 1] == last[|last| - 1]
  {
    if |tokens| > 1 {
      SpacedEnds(tokens[1..], gaps[1..]);
    }
  }

  /** Every character of spaced tokens comes from a token or a gap. */
  lemma {:induction false} SpacedChars(tokens: seq<string>, gaps: seq<string>, bad: char -> bool)
    requires |tokens| >= 1 && |gaps| == |tokens| - 1
    requires forall k :: 0 <= k < |tokens| ==> NoneMatch(tokens[k], bad)
    requires forall k :: 0 <= k < |gaps| ==> NoneMatch(gaps[k], bad)
    ensures NoneMatch(Spaced(tokens, gaps), bad)
  {
    if |tokens| > 1 {
      SpacedChars(tokens[1..], gaps[1..], bad);
      NoneMatchConcat(tokens[0], gaps[0], bad);
      NoneMatchConcat(tokens[0] + gaps[0], Spaced(tokens[1..], gaps[1..]), bad);
    }
  }

  lemma NoneMatchConcat(a: string, b: string, bad: char -> bool)
    requires NoneMatch(a, bad) && NoneMatch(b, bad)
    ensures NoneMatch(a + b, bad)
  {
    forall j | 0 <= j < |a + b| ensures !bad((a + b)[j]) {
      if j >= |a| {
        assert (a + b)[j] == b[j - |a|];
      }
    }
  }

  /** `trim` removes leading white space up to the first other character. */
  lemma {:induction false} TrimStartSpace(a: string, x: string)
    requires AllSpace(a) && |x| > 0 && !IsSpace(x[0])
    ensures TrimStart(a + x) == x
  {
    if |a| > 0 {
      assert (a + x)[1..] == a[1..] + x;
      TrimStartSpace(a[1..], x);
    } else {
      assert a + x == x;
    }
  }

  /** `trim` removes trailing white space back to the last other character. */
  lemma {:induction false} TrimEndSpace(x: string, b: string)
    requires AllSpace(b) && |x| > 0 && !IsSpace(x[|x| - 1])
    ensures TrimEnd(x + b) == x
  {
    if |b| > 0 {
      assert (x + b)[..|x + b| - 1] == x + b[..|b| - 1];
      TrimEndSpace(x, b[..|b| - 1]);
    } else {
      assert x + b == x;
    }
  }

  /** `trim` of a text between white space that starts and ends with other characters. */
  lemma TrimBetween(a: string, x: string, b: string)
    requires AllSpace(a) && AllSpace(b) && |x| > 0 && !IsSpace(x[0]) && !IsSpace(x[|x| - 1])
    ensures Trim(a + x + b) == x
  {
    assert a + x + b == a + (x + b);
    TrimStartSpace(a, x + b);
    TrimEndSpace(x, b);
  }

}
