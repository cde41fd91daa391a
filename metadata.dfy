/**
 * The userscript metadata header parser: the text is cut into lines, blank
 * lines and marker lines are dropped, and every other line becomes one
 * directive `@key value...`, folded left to right into an object. A key that
 * repeats turns into the list of its values; the loader then collapses each
 * list to its last element.
 */
module Metadata {
  import opened Text

  /** One parsed header line. */
  datatype Directive = Directive(key: string, value: string)

  /** A list value exists only once a key has been seen twice. */
  type Repeated = vs: seq<string> | |vs| >= 2 witness ["", ""]

  /** What the parser stores under a key: a string, or the list of every value in source order. */
  datatype MetaValue = Single(value: string) | Multi(values: Repeated)

  /** The object the parser returns. */
  type RawMeta = map<string, MetaValue>

  /** The object after the last-value collapse: every value is a string. */
  type Meta = map<string, string>

  const StartTag := "==UserScript=="
  const EndTag := "==/UserScript=="

  /** The filter: a line with some non-blank character and neither marker. */
  predicate IsDirectiveLine(line: string) {
    HasNonSpace(line) && !Contains(line, StartTag) && !Contains(line, EndTag)
  }

  /**
   * One directive line: trim, drop one leading `//`, trim again, split on
   * runs of white space; the key is the first token without its first
   * character, the value the other tokens joined by single spaces.
   */
  function ParseLine(line: string): Directive {
    var t := Trim(line);
    var u := Trim(if StartsWith(t, "//") then t[2..] else t);
    var tokens := SplitSpaces(u);
    Directive(DropFirst(tokens[0]), Join(tokens[1..], " "))
  }

  /** The filter and the per-line step on one line. */
  function Kept(line: string): seq<Directive> {
    if IsDirectiveLine(line) then [ParseLine(line)] else []
  }

  /** The filter and the per-line step, over the lines in order. */
  function DirectivesOf(lines: seq<string>): seq<Directive> {
    if |lines| == 0 then [] else Kept(lines[0]) + DirectivesOf(lines[1..])
  }

  /** The reducer's step: first value, then a two-element list, then appends. */
  function Insert(obj: RawMeta, d: Directive): RawMeta {
    if d.key !in obj then obj[d.key := Single(d.value)]
    else match obj[d.key]
      case Single(first) => obj[d.key := Multi([first, d.value])]
      case Multi(vs) => obj[d.key := Multi(vs + [d.value])]
  }

  /** `reduce` from the empty object, left to right. */
  function Fold(ds: seq<Directive>): RawMeta {
    if |ds| == 0 then map[] else Insert(Fold(ds[..|ds| - 1]), ds[|ds| - 1])
  }

  /** `parseMetadata`. */
  function Parse(text: string): RawMeta {
    Fold(DirectivesOf(Split(text, IsLineBreak)))
  }

  lemma ParseOfLines(text: string, lines: seq<string>)
    requires Split(text, IsLineBreak) == lines
    ensures Parse(text) == Fold(DirectivesOf(lines))
  {
  }

  /** The value a key keeps after the collapse. */
  function Last(v: MetaValue): string {
    match v
    case Single(s) => s
    case Multi(vs) => vs[|vs| - 1]
  }

  /** The collapse pass: a list is replaced by its last element. */
  function Collapse(raw: RawMeta): Meta {
    map k | k in raw :: Last(raw[k])
  }

  // ---------------------------------------------------------------------
  // Reference view: the values of one key, in source order

  /** Every value given for `key`, in the order of the lines. */
  function ValuesOf(key: string, ds: seq<Directive>): seq<string> {
    if |ds| == 0 then []
    else ValuesOf(key, ds[..|ds| - 1]) + (if ds[|ds| - 1].key == key then [ds[|ds| - 1].value] else [])
  }

  /** How one key's values are stored: alone as a string, several as a list. */
  function Pack(vs: seq<string>): MetaValue
    requires |vs| >= 1
  {
    if |vs| == 1 then Single(vs[0]) else Multi(vs)
  }

  /**
   * A key is in the parsed object exactly when some line gives it; a key seen
   * once holds its value, a key seen several times holds all its values in
   * source order.
   */
  lemma {:induction false} FoldEntry(ds: seq<Directive>, key: string)
    ensures key in Fold(ds) <==> |ValuesOf(key, ds)| > 0
    ensures key in Fold(ds) ==> Fold(ds)[key] == Pack(ValuesOf(key, ds))
  {
    if |ds| > 0 {
      var front, d := ds[..|ds| - 1], ds[|ds| - 1];
      FoldEntry(front, key);
      var vs := ValuesOf(key, front);
      if d.key == key {
        assert ValuesOf(key, ds) == vs + [d.value];
        InsertSameKey(Fold(front), d, vs);
      } else {
        assert ValuesOf(key, ds) == vs;
      }
    }
  }

  /** The step on the key it inserts: the stored values gain one at the end. */
  lemma InsertSameKey(obj: RawMeta, d: Directive, vs: seq<string>)
    requires d.key in obj <==> |vs| > 0
    requires d.key in obj ==> |vs| > 0 && obj[d.key] == Pack(vs)
    ensures d.key in Insert(obj, d) && Insert(obj, d)[d.key] == Pack(vs + [d.value])
  {
    if d.key in obj {
      match obj[d.key]
      case Single(first) =>
        assert vs == [first];
      case Multi(ws) =>
        assert ws == vs;
    }
  }

  /** After the collapse, every key given by some line holds the value of its last occurrence. */
  lemma CollapsedEntry(ds: seq<Directive>, key: string)
    ensures key in Collapse(Fold(ds)) <==> |ValuesOf(key, ds)| > 0
    ensures key in Collapse(Fold(ds)) ==>
              var vs := ValuesOf(key, ds); Collapse(Fold(ds))[key] == vs[|vs| - 1]
  {
    FoldEntry(ds, key);
  }

  /** A header whose lines are all blank or markers parses to the empty object. */
  lemma {:induction false} NoDirectiveLines(lines: seq<string>)
    requires forall i :: 0 <= i < |lines| ==> !IsDirectiveLine(lines[i])
    ensures DirectivesOf(lines) == []
    ensures Fold(DirectivesOf(lines)) == map[]
  {
    if |lines| > 0 {
      NoDirectiveLines(lines[1..]);
    }
  }

  lemma {:induction false} DirectivesOfAppend(a: seq<string>, b: seq<string>)
    ensures DirectivesOf(a + b) == DirectivesOf(a) + DirectivesOf(b)
  {
    if |a| > 0 {
      assert (a + b)[0] == a[0];
      assert (a + b)[1..] == a[1..] + b;
      DirectivesOfAppend(a[1..], b);
    } else {
      assert a + b == b;
    }
  }

  /**
   * Lines ended by `\r\n` give the directives of their text: the empty piece
   * a `\r` leaves behind is blank, so the filter drops it.
   */
  lemma {:induction false} ChompedDirectives(lines: seq<string>)
    requires CleanLines(lines)
    ensures DirectivesOf(SplitEach(lines, IsLineBreak)) == DirectivesOf(ChompAll(lines))
  {
    if |lines| > 0 {
      var pieces, rest := Split(lines[0], IsLineBreak), SplitEach(lines[1..], IsLineBreak);
      DirectivesOfAppend(pieces, rest);
      assert DirectivesOf(pieces) == Kept(Chomp(lines[0])) by {
        ChompSplit(lines[0]);
        assert !IsDirectiveLine("");
        assert DirectivesOf([""]) == [];
      }
      assert CleanLines(lines[1..]) by {
        assert forall k :: 0 < k < |lines| ==> lines[1..][k - 1] == lines[k];
      }
      ChompedDirectives(lines[1..]);
      assert ChompAll(lines)[1..] == ChompAll(lines[1..]);
    }
  }

  // ---------------------------------------------------------------------
  // Round trip: a header written in the usual form parses back

  /**
   * A directive line as written: `indent`, then `//`, then `lead`, then
   * `@key`, then every word after the run of white space written before it,
   * then `tail`.
   */
  datatype Written = Written(indent: string, lead: string, key: string, spaced: seq<(string, string)>, tail: string)

  /** The words of a written directive, without the white space before them. */
  function Words(w: Written): (r: seq<string>)
    ensures |r| == |w.spaced| && forall i :: 0 <= i < |r| ==> r[i] == w.spaced[i].1
  {
    seq(|w.spaced|, i requires 0 <= i < |w.spaced| => w.spaced[i].1)
  }

  /** The run of white space before each word. */
  function GapsOf(w: Written): (r: seq<string>)
    ensures |r| == |w.spaced| && forall i :: 0 <= i < |r| ==> r[i] == w.spaced[i].0
  {
    seq(|w.spaced|, i requires 0 <= i < |w.spaced| => w.spaced[i].0)
  }

  /** The tokens of the line after `//`: `@key` and the words. */
  function Tokens(w: Written): seq<string> {
    ["@" + w.key] + Words(w)
  }

  predicate IsWord(w: string) {
    |w| > 0 && NoneMatch(w, IsSpace)
  }

  /**
   * The white-space parts are white space, every word is preceded by at
   * least one white-space character, and the key and the words hold none.
   */
  predicate WellSpaced(w: Written) {
    && AllSpace(w.indent) && AllSpace(w.lead) && AllSpace(w.tail)
    && Gaps(GapsOf(w))
    && NoneMatch(w.key, IsSpace)
    && (forall i :: 0 <= i < |w.spaced| ==> IsWord(w.spaced[i].1))
  }

  /**
   * Well spaced, with no white space that ends the line, on a line the
   * filter keeps: the line names neither marker tag.
   */
  predicate WellWritten(w: Written) {
    && WellSpaced(w)
    && NoneMatch(w.indent, IsLineBreak) && NoneMatch(w.lead, IsLineBreak) && NoneMatch(w.tail, IsLineBreak)
    && (forall i :: 0 <= i < |w.spaced| ==> NoneMatch(w.spaced[i].0, IsLineBreak))
    && !Contains(FormatLine(w), StartTag) && !Contains(FormatLine(w), EndTag)
  }

  predicate AllWellWritten(ws: seq<Written>) {
    forall i :: 0 <= i < |ws| ==> WellWritten(ws[i])
  }

  function FormatLine(w: Written): string {
    w.indent + "//" + w.lead + Spaced(Tokens(w), GapsOf(w)) + w.tail
  }

  function FormatLines(ws: seq<Written>): seq<string> {
    if |ws| == 0 then [] else [FormatLine(ws[0])] + FormatLines(ws[1..])
  }

  /** A complete header block: start marker, one line per directive, end marker. */
  function FormatHeader(ws: seq<Written>): string {
    Join(HeaderText(ws), "\n")
  }

  /** The lines of a written header: the two marker lines around the directive lines. */
  function HeaderText(ws: seq<Written>): seq<string> {
    ["// " + StartTag] + FormatLines(ws) + ["// " + EndTag]
  }

  /** What each written directive means: its key and its words joined by single spaces. */
  function Meant(ws: seq<Written>): seq<Directive> {
    if |ws| == 0 then [] else [Directive(ws[0].key, Join(Words(ws[0]), " "))] + Meant(ws[1..])
  }

  /**
   * `// @key w1 w2`, however much white space stands around `//` and
   * between the tokens, parses to key `key` and value `w1 w2`.
   */
  lemma ParseLineRoundTrip(w: Written)
    requires WellSpaced(w)
    ensures ParseLine(FormatLine(w)) == Directive(w.key, Join(Words(w), " "))
  {
    var tokens, gaps := Tokens(w), GapsOf(w);
    var body := Spaced(tokens, gaps);
    var x := "//" + w.lead + body;
    assert Trim(FormatLine(w)) == x && Trim(w.lead + body) == body by {
      SpacedLineTrims(w);
    }
    assert StartsWith(x, "//") && x[2..] == w.lead + body;
    assert SplitSpaces(body) == tokens by {
      TokensAreWords(w);
      SpacedWords(tokens, gaps);
    }
    ParseTrimmed(FormatLine(w), body);
    assert DropFirst(tokens[0]) == w.key;
    assert tokens[1..] == Words(w);
  }

  /** The per-line step once the trims and the `//` are done. */
  lemma ParseTrimmed(line: string, u: string)
    requires StartsWith(Trim(line), "//") && Trim(Trim(line)[2..]) == u
    ensures ParseLine(line) == Directive(DropFirst(SplitSpaces(u)[0]), Join(SplitSpaces(u)[1..], " "))
  {
  }

  /** `trim` removes the indentation and the tail, and after `//` the lead. */
  lemma SpacedLineTrims(w: Written)
    requires WellSpaced(w)
    ensures var body := Spaced(Tokens(w), GapsOf(w));
            Trim(FormatLine(w)) == "//" + w.lead + body && Trim(w.lead + body) == body
  {
    var tokens := Tokens(w);
    var body := Spaced(tokens, GapsOf(w));
    var x := "//" + w.lead + body;
    TokensAreWords(w);
    SpacedEnds(tokens, GapsOf(w));
    assert !IsSpace(body[0]) && !IsSpace(body[|body| - 1]) by {
      assert body[0] == tokens[0][0];
      var last := tokens[|tokens| - 1];
      assert IsWord(last);
    }
    assert FormatLine(w) == w.indent + x + w.tail;
    assert x[|x| - 1] == body[|body| - 1];
    TrimBetween(w.indent, x, w.tail);
    assert w.lead + body == w.lead + body + "";
    TrimBetween(w.lead, body, "");
  }

  /** `@key` and the words are non-empty and free of white space. */
  lemma TokensAreWords(w: Written)
    requires WellSpaced(w)
    ensures forall k :: 0 <= k < |Tokens(w)| ==> IsWord(Tokens(w)[k])
  {
    var tokens := Tokens(w);
    forall k | 0 <= k < |tokens| ensures IsWord(tokens[k]) {
      if k == 0 {
        assert tokens[0] == "@" + w.key;
        assert forall i :: 1 <= i < |tokens[0]| ==> tokens[0][i] == w.key[i - 1];
      } else {
        assert tokens[k] == w.spaced[k - 1].1;
      }
    }
  }

  /** A line of white space alone is dropped by the filter; any other line without a marker tag is parsed. */
  lemma BlankLineSkipped(line: string)
    ensures AllSpace(line) ==> Kept(line) == []
    ensures !AllSpace(line) && !Contains(line, StartTag) && !Contains(line, EndTag) ==> Kept(line) == [ParseLine(line)]
  {
  }

  /** Every line of a formatted header is free of line breaks and passes the filter. */
  lemma FormatLineChars(w: Written)
    requires WellWritten(w)
    ensures NoneMatch(FormatLine(w), IsLineBreak)
    ensures IsDirectiveLine(FormatLine(w))
  {
    var tokens, gaps := Tokens(w), GapsOf(w);
    TokensAreWords(w);
    assert NoneMatch(Spaced(tokens, gaps), IsLineBreak) by {
      SpacedChars(tokens, gaps, IsLineBreak);
    }
    NoneMatchConcat(w.indent, "//", IsLineBreak);
    NoneMatchConcat(w.indent + "//", w.lead, IsLineBreak);
    NoneMatchConcat(w.indent + "//" + w.lead, Spaced(tokens, gaps), IsLineBreak);
    NoneMatchConcat(w.indent + "//" + w.lead + Spaced(tokens, gaps), w.tail, IsLineBreak);
    var line := FormatLine(w);
    assert line[|w.indent|] == '/';
  }

  lemma {:induction false} FormatLinesFacts(ws: seq<Written>)
    requires AllWellWritten(ws)
    ensures |FormatLines(ws)| == |ws|
    ensures NoLineBreaks(FormatLines(ws))
  {
    if |ws| > 0 {
      FormatLinesFacts(ws[1..]);
      FormatLineChars(ws[0]);
      forall i | 0 <= i < |ws| ensures NoneMatch(FormatLines(ws)[i], IsLineBreak) {
        if i > 0 {
          assert FormatLines(ws)[i] == FormatLines(ws[1..])[i - 1];
        }
      }
    }
  }

  lemma {:induction false} FormatLinesParse(ws: seq<Written>)
    requires AllWellWritten(ws)
    ensures DirectivesOf(FormatLines(ws)) == Meant(ws)
  {
    if |ws| > 0 {
      FormatLinesParse(ws[1..]);
      FormatLineChars(ws[0]);
      ParseLineRoundTrip(ws[0]);
      assert FormatLines(ws)[1..] == FormatLines(ws[1..]);
    }
  }

  /** The directives of a formatted header are exactly the written ones, in order. */
  lemma HeaderRoundTrip(ws: seq<Written>)
    requires AllWellWritten(ws)
    ensures Parse(FormatHeader(ws)) == Fold(Meant(ws))
  {
    var lines := HeaderText(ws);
    assert Split(FormatHeader(ws), IsLineBreak) == lines by {
      HeaderTextSplits(ws);
    }
    assert DirectivesOf(lines) == Meant(ws) by {
      HeaderDirectives(ws);
    }
    ParseOfLines(FormatHeader(ws), lines);
  }

  lemma HeaderTextSplits(ws: seq<Written>)
    requires AllWellWritten(ws)
    ensures Split(FormatHeader(ws), IsLineBreak) == HeaderText(ws)
  {
    var first, body, last := "// " + StartTag, FormatLines(ws), "// " + EndTag;
    assert Split(Join([first] + body + [last], "\n"), IsLineBreak) == [first] + body + [last] by {
      FormatLinesFacts(ws);
      MarkerLines();
      SplitFramed(first, body, last);
    }
  }

  lemma HeaderDirectives(ws: seq<Written>)
    requires AllWellWritten(ws)
    ensures DirectivesOf(HeaderText(ws)) == Meant(ws)
  {
    FormatLinesParse(ws);
    MarkerLines();
    DirectivesFramed("// " + StartTag, FormatLines(ws), "// " + EndTag);
  }

  /** The two marker lines hold no line break and are not directive lines. */
  lemma MarkerLines()
    ensures NoneMatch("// " + StartTag, IsLineBreak) && !IsDirectiveLine("// " + StartTag)
    ensures NoneMatch("// " + EndTag, IsLineBreak) && !IsDirectiveLine("// " + EndTag)
  {
    assert OccursAt("// " + StartTag, StartTag, 3);
    assert OccursAt("// " + EndTag, EndTag, 3);
  }

  lemma FramedLines(first: string, body: seq<string>, last: string)
    requires NoneMatch(first, IsLineBreak) && NoneMatch(last, IsLineBreak)
    requires NoLineBreaks(body)
    ensures NoLineBreaks([first] + body + [last])
  {
    var lines := [first] + body + [last];
    forall k | 0 <= k < |lines| ensures NoneMatch(lines[k], IsLineBreak) {
      if k == 0 {
        assert lines[k] == first;
      } else if k == |lines| - 1 {
        assert lines[k] == last;
      } else {
        assert lines[k] == body[k - 1];
      }
    }
  }

  lemma SplitFramed(first: string, body: seq<string>, last: string)
    requires NoneMatch(first, IsLineBreak) && NoneMatch(last, IsLineBreak)
    requires NoLineBreaks(body)
    ensures Split(Join([first] + body + [last], "\n"), IsLineBreak) == [first] + body + [last]
  {
    FramedLines(first, body, last);
    SplitJoin([first] + body + [last], IsLineBreak, '\n');
  }

  lemma DirectivesFramed(first: string, body: seq<string>, last: string)
    requires !IsDirectiveLine(first) && !IsDirectiveLine(last)
    ensures DirectivesOf([first] + body + [last]) == DirectivesOf(body)
  {
    assert DirectivesOf([first]) == [];
    assert DirectivesOf([last]) == [];
    DirectivesOfAppend([first] + body, [last]);
    DirectivesOfAppend([first], body);
  }

  /** Example: one key given once and one key given three times. */
  lemma RepeatedKeyExample()
    ensures var ds := [Directive("name", "A"), Directive("match", "x"), Directive("match", "y"), Directive("match", "z")];
            Fold(ds) == map["name" := Single("A"), "match" := Multi(["x", "y", "z"])]
            && Collapse(Fold(ds)) == map["name" := "A", "match" := "z"]
  {
    var a, x, y, z := Directive("name", "A"), Directive("match", "x"), Directive("match", "y"), Directive("match", "z");
    assert [a][..0] == [];
    assert Fold([a]) == map["name" := Single("A")];
    assert [a, x][..1] == [a];
    assert Fold([a, x]) == map["name" := Single("A"), "match" := Single("x")];
    assert [a, x, y][..2] == [a, x];
    assert Fold([a, x])["match"] == Single("x");
    assert Fold([a, x, y]) == map["name" := Single("A"), "match" := Multi(["x", "y"])];
    assert [a, x, y, z][..3] == [a, x, y];
    assert Fold([a, x, y])["match"] == Multi(["x", "y"]);
    assert ["x", "y"] + ["z"] == ["x", "y", "z"];
    assert Fold([a, x, y, z]) == map["name" := Single("A"), "match" := Multi(["x", "y", "z"])];
  }

  /** A text with no two adjacent characters equal to the first two of `m` does not contain `m`. */
  lemma NoOpeningPair(s: string, m: string)
    requires |m| >= 2
    requires forall i :: 0 <= i < |s| - 1 ==> !(s[i] == m[0] && s[i + 1] == m[1])
    ensures !Contains(s, m)
  {
    forall p: nat | p <= |s| ensures !OccursAt(s, m, p) {
      if p + |m| <= |s| {
        assert s[p..p + |m|][0] == s[p] && s[p..p + |m|][1] == s[p + 1];
      }
    }
  }

  /** Example: a `@match` value with a query string, `=` included, is a well-written directive. */
  lemma QueryMatchWellWritten()
    ensures WellWritten(Written("", " ", "match", [(" ", "https://krunker.io/?game=1")], ""))
    ensures ParseLine("// " + "@match" + " " + "https://krunker.io/?game=1") == Directive("match", "https://krunker.io/?game=1")
  {
    var url := "https://krunker.io/?game=1";
    var w := Written("", " ", "match", [(" ", url)], "");
    assert WellSpaced(w) by {
      QueryMatchWords();
    }
    assert FormatLine(w) == "// " + "@match" + " " + "https://krunker.io/?game=1" by {
      QueryMatchLine();
    }
    assert !Contains(FormatLine(w), StartTag) && !Contains(FormatLine(w), EndTag) by {
      QueryMatchNoTag();
    }
    assert ParseLine(FormatLine(w)) == Directive(w.key, Join(Words(w), " ")) by {
      ParseLineRoundTrip(w);
    }
    assert Words(w) == [url] by {
      assert Words(w)[0] == url;
    }
  }

  lemma QueryMatchWords()
    ensures WellSpaced(Written("", " ", "match", [(" ", "https://krunker.io/?game=1")], ""))
  {
    var url := "https://krunker.io/?game=1";
    var w := Written("", " ", "match", [(" ", url)], "");
    assert IsWord(url);
    assert GapsOf(w) == [" "] by {
      assert GapsOf(w)[0] == " ";
    }
  }

  lemma QueryMatchLine()
    ensures FormatLine(Written("", " ", "match", [(" ", "https://krunker.io/?game=1")], "")) == "// " + "@match" + " " + "https://krunker.io/?game=1"
  {
    var url := "https://krunker.io/?game=1";
    var w := Written("", " ", "match", [(" ", url)], "");
    assert Words(w) == [url] && GapsOf(w) == [" "] by {
      assert Words(w)[0] == url && GapsOf(w)[0] == " ";
    }
    assert Tokens(w) == ["@match", url] by {
      assert "@" + w.key == "@match";
      assert ["@match"] + [url] == ["@match", url];
    }
    assert Spaced(["@match", url], [" "]) == "@match" + " " + url by {
      assert ["@match", url][1..] == [url];
    }
  }

  lemma QueryMatchNoTag()
    ensures var line := "// " + "@match" + " " + "https://krunker.io/?game=1";
            !Contains(line, StartTag) && !Contains(line, EndTag)
  {
    var line := "// " + "@match" + " " + "https://krunker.io/?game=1";
    NoOpeningPair(line, StartTag);
    NoOpeningPair(line, EndTag);
  }

  /** Example: runs of white space between the tokens and after the last one collapse to single spaces. */
  lemma SpacedNameExample()
    ensures ParseLine("// " + "@name" + "   " + "My" + "  " + "Script" + " ") == Directive("name", "My" + " " + "Script")
  {
    var w := Written("", " ", "name", [("   ", "My"), ("  ", "Script")], " ");
    assert WellSpaced(w) by {
      SpacedNameWords();
    }
    assert FormatLine(w) == "// " + "@name" + "   " + "My" + "  " + "Script" + " " by {
      SpacedNameLine();
    }
    ParseLineRoundTrip(w);
    assert Words(w) == ["My", "Script"] by {
      assert Words(w)[0] == "My" && Words(w)[1] == "Script";
    }
    assert Join(["My", "Script"], " ") == "My" + " " + "Script" by {
      JoinPair("My", "Script", " ");
    }
  }

  lemma JoinPair(a: string, b: string, glue: string)
    ensures Join([a, b], glue) == a + glue + b
  {
    assert [a, b][1..] == [b];
  }

  lemma SpacedNameWords()
    ensures WellSpaced(Written("", " ", "name", [("   ", "My"), ("  ", "Script")], " "))
  {
    var w := Written("", " ", "name", [("   ", "My"), ("  ", "Script")], " ");
    assert IsWord("My") && IsWord("Script");
    assert GapsOf(w) == ["   ", "  "] by {
      assert GapsOf(w)[0] == "   " && GapsOf(w)[1] == "  ";
    }
  }

  lemma SpacedNameLine()
    ensures FormatLine(Written("", " ", "name", [("   ", "My"), ("  ", "Script")], " ")) == "// " + "@name" + "   " + "My" + "  " + "Script" + " "
  {
    var w := Written("", " ", "name", [("   ", "My"), ("  ", "Script")], " ");
    assert Words(w) == ["My", "Script"] && GapsOf(w) == ["   ", "  "] by {
      assert Words(w)[0] == "My" && Words(w)[1] == "Script";
      assert GapsOf(w)[0] == "   " && GapsOf(w)[1] == "  ";
    }
    assert Tokens(w) == ["@name", "My", "Script"] by {
      assert "@" + w.key == "@name";
      assert ["@name"] + ["My", "Script"] == ["@name", "My", "Script"];
    }
    assert Spaced(["@name", "My", "Script"], ["   ", "  "]) == "@name" + "   " + "My" + "  " + "Script" by {
      assert ["@name", "My", "Script"][1..] == ["My", "Script"] && ["   ", "  "][1..] == ["  "];
      assert ["My", "Script"][1..] == ["Script"] && ["  "][1..] == [];
    }
  }
}
