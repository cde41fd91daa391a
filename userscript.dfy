/**
 * One userscript as the loader sees it: the record its constructor derives
 * from the file name and the file contents (strict-mode flag, metadata
 * header, `@run-at`, `@priority`, settings file name), and `load`, which
 * captures what the script returns and replays the saved custom settings.
 */
module ScriptRecord {
  import opened Wrappers
  import opened Text
  import opened Metadata
  import opened JsParseInt

  const StartMarker := "// ==UserScript=="
  const EndMarker := "// ==/UserScript=="
  const StrictPragma := "\"use strict\""
  const EarlyRunAt := "document.start"

  /** When the loader runs a script: at once, or on `DOMContentLoaded`. */
  datatype RunAt = DocumentStart | DocumentEnd

  /**
   * The `priority` field. It stays `undefined` when the script has no header,
   * and `parseInt` of a value without leading digits is NaN.
   */
  datatype Priority = Undefined | NotANumber | Finite(n: int)

  // ---------------------------------------------------------------------
  // Record derivation

  /** `lines.findIndex(line => line.includes(m))`: the first line containing `m`, or -1. */
  function FindLine(lines: seq<string>, m: string): (i: int)
    ensures -1 <= i < |lines|
  {
    if |lines| == 0 then -1
    else if Contains(lines[0], m) then 0
    else
      var r := FindLine(lines[1..], m);
      if r == -1 then -1 else r + 1
  }

  /** -1 exactly when no line contains `m`; otherwise the first line that does. */
  lemma {:induction false} FindLineFound(lines: seq<string>, m: string)
    ensures var i := FindLine(lines, m);
            (i == -1 <==> forall k :: 0 <= k < |lines| ==> !Contains(lines[k], m)) &&
            (i >= 0 ==> Contains(lines[i], m) && forall k :: 0 <= k < i ==> !Contains(lines[k], m))
  {
    if |lines| > 0 && !Contains(lines[0], m) {
      var rest := lines[1..];
      FindLineFound(rest, m);
      forall k | 0 < k < |lines| ensures lines[k] == rest[k - 1] {
      }
    }
  }

  /**
   * `findIndex` over `[[text]]`: the one element is the array `[text]`, whose
   * `includes(m)` asks whether `text` equals `m`.
   */
  function WrappedIndex(text: string, m: string): int {
    if text == m then 0 else -1
  }

  /** Both marker lines occur somewhere in the text. */
  predicate HasHeaderMarkers(content: string) {
    Contains(content, StartMarker) && Contains(content, EndMarker)
  }

  /**
   * The lines handed to the parser, or `None` when the metadata stays
   * `false`: from the first start-marker line to the first end-marker line,
   * both included, and no line at all when the end marker comes first.
   */
  function HeaderLines(content: string): Option<seq<string>> {
    if !HasHeaderMarkers(content) then None else LinesBetween(Split(content, IsNewline))
  }

  /** The block between the marker lines of `lines`, or `None` when one of them is not found. */
  function LinesBetween(lines: seq<string>): Option<seq<string>>
    requires |lines| >= 1
  {
    var start := if |lines| == 1 then WrappedIndex(lines[0], StartMarker) else FindLine(lines, StartMarker);
    var end := if |lines| == 1 then WrappedIndex(lines[0], EndMarker) else FindLine(lines, EndMarker);
    Window(lines, start, end)
  }

  /** `lines.slice(start, end + 1)` once both indices were found. */
  function Window(lines: seq<string>, start: int, end: int): Option<seq<string>>
    requires -1 <= start < |lines| && -1 <= end < |lines|
  {
    if start == -1 || end == -1 then None
    else if start <= end then Some(lines[start..end + 1])
    else Some([])
  }

  /** On a text of several lines both indices come from `FindLine`. */
  lemma ManyLines(content: string)
    requires HasHeaderMarkers(content) && |Lines(content)| > 1
    ensures HeaderLines(content) == Window(Lines(content), FindLine(Lines(content), StartMarker), FindLine(Lines(content), EndMarker))
  {
  }

  /** The `meta` field: the parsed header block with every repeated key collapsed to its last value. */
  function HeaderMeta(content: string): Option<Meta> {
    match HeaderLines(content)
    case None => None
    case Some(block) => Some(Collapse(Parse(Join(block, "\n"))))
  }

  /** `runAt`: early only for the exact value `document.start`. */
  function RunAtOf(meta: Option<Meta>): RunAt {
    if meta.Some? && "run-at" in meta.value && meta.value["run-at"] == EarlyRunAt then DocumentStart
    else DocumentEnd
  }

  /** `priority`: unset without a header, 0 without a directive, otherwise `parseInt` of the value. */
  function PriorityOf(meta: Option<Meta>): Priority {
    match meta
    case None => Undefined
    case Some(m) =>
      if "priority" !in m then Finite(0)
      else match ParseInt(m["priority"])
        case None => NotANumber
        case Some(n) => Finite(n)
  }

  /**
   * `name.replace(/.js$/u, '.json')`: the last three characters are replaced
   * when they are any character but a line terminator followed by `js`.
   */
  function SettingsFileName(name: string): string {
    var n := |name|;
    if n >= 3 && name[n - 2..] == "js" && !IsLineTerminator(name[n - 3]) then name[..n - 3] + ".json"
    else name
  }

  // ---------------------------------------------------------------------
  // Properties of the derivation

  /**
   * Metadata exists exactly when both marker lines occur and the text has
   * more than one line; text on a single line never has metadata.
   */
  lemma {:induction false} HeaderPresence(content: string)
    ensures HeaderMeta(content).Some? <==> HasHeaderMarkers(content) && !NoneMatch(content, IsNewline)
  {
    var lines := Split(content, IsNewline);
    SplitOnePiece(content, IsNewline);
    if HasHeaderMarkers(content) && !NoneMatch(content, IsNewline) {
      assert FindLine(lines, StartMarker) != -1 by {
        assert NoneMatch(StartMarker, IsNewline);
        ContainsInPiece(content, StartMarker, IsNewline);
        FindLineFound(lines, StartMarker);
      }
      assert FindLine(lines, EndMarker) != -1 by {
        assert NoneMatch(EndMarker, IsNewline);
        ContainsInPiece(content, EndMarker, IsNewline);
        FindLineFound(lines, EndMarker);
      }
      ManyLines(content);
    }
  }

  /** Without the end marker there is no metadata, and no error. */
  lemma StartMarkerAlone(content: string)
    requires Contains(content, StartMarker) && !Contains(content, EndMarker)
    ensures HeaderMeta(content) == None
    ensures RunAtOf(HeaderMeta(content)) == DocumentEnd && PriorityOf(HeaderMeta(content)) == Undefined
  {
  }

  /** The text of the lines of a multi-line content. */
  function Lines(content: string): seq<string> {
    Split(content, IsNewline)
  }

  /** An end-marker line above the first start-marker line leaves an empty header. */
  lemma EndBeforeStart(content: string)
    requires HasHeaderMarkers(content) && |Lines(content)| > 1
    requires FindLine(Lines(content), EndMarker) < FindLine(Lines(content), StartMarker)
    requires FindLine(Lines(content), EndMarker) != -1
    ensures HeaderMeta(content) == Some(map[])
    ensures PriorityOf(HeaderMeta(content)) == Finite(0)
  {
    ManyLines(content);
    assert HeaderLines(content) == Some([]);
    assert Join([], "\n") == "";
    assert Split("", IsLineBreak) == [""];
    assert !IsDirectiveLine("");
    assert DirectivesOf([""]) == [];
  }

  /** A line holding a marker is never a directive line. */
  lemma MarkerLineSkipped(line: string)
    requires Contains(line, StartMarker) || Contains(line, EndMarker)
    ensures !IsDirectiveLine(line)
  {
    if Contains(line, StartMarker) {
      assert StartMarker == "// " + StartTag;
      ContainsTail(line, "// ", StartTag);
    } else {
      assert EndMarker == "// " + EndTag;
      ContainsTail(line, "// ", EndTag);
    }
  }

  /**
   * For any text, the metadata is read from the lines from the first
   * start-marker line to the first end-marker line, each split again on
   * `[\r\n]`.
   */
  lemma {:induction false} HeaderPieces(content: string, s: int, e: int)
    requires HasHeaderMarkers(content) && |Lines(content)| > 1
    requires s == FindLine(Lines(content), StartMarker) && e == FindLine(Lines(content), EndMarker)
    requires 0 <= s <= e
    ensures HeaderMeta(content) == Some(Collapse(Fold(DirectivesOf(SplitEach(Lines(content)[s..e + 1], IsLineBreak)))))
  {
    var block := Lines(content)[s..e + 1];
    ManyLines(content);
    HeaderMetaOfBlock(content, block);
    SplitJoined(block, IsLineBreak, '\n');
  }

  /**
   * With every line of the header ended by `\n` or `\r\n`, the metadata is
   * read from the text of exactly the lines strictly between the first
   * start-marker line and the first end-marker line.
   */
  lemma {:induction false} HeaderBlock(content: string, s: int, e: int)
    requires HasHeaderMarkers(content) && |Lines(content)| > 1
    requires s == FindLine(Lines(content), StartMarker) && e == FindLine(Lines(content), EndMarker)
    requires 0 <= s < e
    requires CleanLines(Lines(content)[s..e + 1])
    ensures HeaderMeta(content) == Some(Collapse(Fold(DirectivesOf(ChompAll(Lines(content)[s + 1..e])))))
    ensures NoLineBreaks(Lines(content)[s + 1..e]) ==> HeaderMeta(content) == Some(Collapse(Fold(DirectivesOf(Lines(content)[s + 1..e]))))
  {
    var lines := Lines(content);
    var mid := lines[s + 1..e];
    HeaderPieces(content, s, e);
    assert DirectivesOf(SplitEach(lines[s..e + 1], IsLineBreak)) == DirectivesOf(ChompAll(mid)) by {
      FindLineFound(lines, StartMarker);
      FindLineFound(lines, EndMarker);
      BlockDirectives(lines, s, e);
    }
    if NoLineBreaks(mid) {
      assert ChompAll(mid) == mid by {
        ChompPlain(mid);
      }
    }
  }

  lemma BlockDirectives(lines: seq<string>, s: nat, e: nat)
    requires s < e < |lines|
    requires Contains(lines[s], StartMarker) && Contains(lines[e], EndMarker)
    requires CleanLines(lines[s..e + 1])
    ensures DirectivesOf(SplitEach(lines[s..e + 1], IsLineBreak)) == DirectivesOf(ChompAll(lines[s + 1..e]))
  {
    var block := lines[s..e + 1];
    SliceOfLines(lines, s, e);
    ChompedDirectives(block);
    ChompedFrame(block);
  }

  lemma SliceOfLines(lines: seq<string>, s: nat, e: nat)
    requires s < e < |lines|
    ensures var block := lines[s..e + 1];
            |block| >= 2 && block[0] == lines[s] && block[|block| - 1] == lines[e] && block[1..|block| - 1] == lines[s + 1..e]
  {
    var block := lines[s..e + 1];
    assert |block| == e + 1 - s;
    var mid := block[1..|block| - 1];
    assert forall k :: 0 <= k < |mid| ==> mid[k] == lines[s + 1..e][k];
    assert mid == lines[s + 1..e];
  }

  lemma HeaderMetaOfBlock(content: string, block: seq<string>)
    requires HeaderLines(content) == Some(block)
    ensures HeaderMeta(content) == Some(Collapse(Parse(Join(block, "\n"))))
  {
  }

  /** A block framed by two marker lines, each line ended by `\n` or `\r\n`, parses as the text of the lines between them. */
  lemma {:induction false} FramedBlock(block: seq<string>)
    requires |block| >= 2
    requires Contains(block[0], StartMarker) && Contains(block[|block| - 1], EndMarker)
    requires CleanLines(block)
    ensures Parse(Join(block, "\n")) == Fold(DirectivesOf(ChompAll(block[1..|block| - 1])))
  {
    assert Parse(Join(block, "\n")) == Fold(DirectivesOf(ChompAll(block))) by {
      ChompedText(block);
    }
    assert DirectivesOf(ChompAll(block)) == DirectivesOf(ChompAll(block[1..|block| - 1])) by {
      ChompedFrame(block);
    }
  }

  lemma {:induction false} ChompedText(block: seq<string>)
    requires |block| >= 1 && CleanLines(block)
    ensures Parse(Join(block, "\n")) == Fold(DirectivesOf(ChompAll(block)))
  {
    SplitJoined(block, IsLineBreak, '\n');
    ParseOfLines(Join(block, "\n"), SplitEach(block, IsLineBreak));
    ChompedDirectives(block);
  }

  lemma {:induction false} ChompedFrame(block: seq<string>)
    requires |block| >= 2
    requires Contains(block[0], StartMarker) && Contains(block[|block| - 1], EndMarker)
    ensures DirectivesOf(ChompAll(block)) == DirectivesOf(ChompAll(block[1..|block| - 1]))
  {
    var chomped := ChompAll(block);
    assert Contains(chomped[0], StartMarker) && Contains(chomped[|block| - 1], EndMarker) by {
      ChompKeeps(block[0], StartMarker);
      ChompKeeps(block[|block| - 1], EndMarker);
    }
    assert DirectivesOf(chomped) == DirectivesOf(chomped[1..|block| - 1]) by {
      FramedDirectives(chomped);
    }
    assert chomped[1..|block| - 1] == ChompAll(block[1..|block| - 1]) by {
      ChompAllSlice(block, 1, |block| - 1);
    }
  }

  lemma FramedDirectives(block: seq<string>)
    requires |block| >= 2
    requires Contains(block[0], StartMarker) && Contains(block[|block| - 1], EndMarker)
    ensures DirectivesOf(block) == DirectivesOf(block[1..|block| - 1])
  {
    var first, mid, last := block[0], block[1..|block| - 1], block[|block| - 1];
    MarkerLineSkipped(first);
    MarkerLineSkipped(last);
    Reframed(block);
    DirectivesFramed(first, mid, last);
  }

  lemma Reframed(block: seq<string>)
    requires |block| >= 2
    ensures block == [block[0]] + block[1..|block| - 1] + [block[|block| - 1]]
  {
    var r := [block[0]] + block[1..|block| - 1] + [block[|block| - 1]];
    assert |r| == |block|;
    forall k | 0 <= k < |block| ensures r[k] == block[k] {
      if 0 < k < |block| - 1 {
        assert r[k] == block[1..|block| - 1][k - 1];
      }
    }
  }

  /** `runAt` is early exactly when the last `@run-at` directive says `document.start`. */
  lemma RunAtDirective(ds: seq<Directive>)
    ensures var vs := ValuesOf("run-at", ds);
            RunAtOf(Some(Collapse(Fold(ds)))) == DocumentStart <==> |vs| > 0 && vs[|vs| - 1] == EarlyRunAt
  {
    CollapsedEntry(ds, "run-at");
  }

  /**
   * With a header, the priority is 0 when no `@priority` directive is given,
   * and otherwise `parseInt` of the last one.
   */
  lemma PriorityDirective(ds: seq<Directive>)
    ensures var vs := ValuesOf("priority", ds);
            |vs| == 0 ==> PriorityOf(Some(Collapse(Fold(ds)))) == Finite(0)
    ensures var vs := ValuesOf("priority", ds);
            |vs| > 0 && ParseInt(vs[|vs| - 1]).Some? ==> PriorityOf(Some(Collapse(Fold(ds)))) == Finite(ParseInt(vs[|vs| - 1]).value)
    ensures var vs := ValuesOf("priority", ds);
            |vs| > 0 ==> (PriorityOf(Some(Collapse(Fold(ds)))) == NotANumber <==> ParseInt(vs[|vs| - 1]) == None)
  {
    CollapsedEntry(ds, "priority");
  }

  /** A last `@priority` written as the decimal text of an integer gives back that integer. */
  lemma PriorityRoundTrip(ds: seq<Directive>, i: int)
    requires var vs := ValuesOf("priority", ds); |vs| > 0 && vs[|vs| - 1] == IntToString(i)
    ensures PriorityOf(Some(Collapse(Fold(ds)))) == Finite(i)
  {
    CollapsedEntry(ds, "priority");
    ParseIntRoundTrip(i);
  }

  /** `@priority 7` and `@priority -3`; a word gives NaN, not 0. */
  lemma PriorityExamples()
    ensures PriorityOf(Some(map["priority" := "7"])) == Finite(7)
    ensures PriorityOf(Some(map["priority" := "-3"])) == Finite(-3)
    ensures PriorityOf(Some(map["priority" := "abc"])) == NotANumber
    ensures PriorityOf(Some(map["name" := "x"])) == Finite(0)
    ensures PriorityOf(None) == Undefined
  {
    ParseIntSeven();
    ParseIntMinusThree();
    ParseIntWord();
  }

  /** Every `.js` name gets its own `.json` settings name. */
  lemma SettingsFileNameJs(name: string)
    requires EndsWith(name, ".js")
    ensures SettingsFileName(name) == name[..|name| - 3] + ".json"
    ensures EndsWith(SettingsFileName(name), ".json")
  {
    assert name[|name| - 2..] == name[|name| - 3..][1..];
    assert name[|name| - 3] == '.';
  }

  /** Two different `.js` names never share a settings file. */
  lemma SettingsFileNameInjective(a: string, b: string)
    requires EndsWith(a, ".js") && EndsWith(b, ".js")
    requires SettingsFileName(a) == SettingsFileName(b)
    ensures a == b
  {
    SettingsFileNameJs(a);
    SettingsFileNameJs(b);
    var x, y := a[..|a| - 3], b[..|b| - 3];
    assert |x| == |y|;
    assert x == (x + ".json")[..|x|] == (y + ".json")[..|y|] == y;
    assert a == x + ".js" && b == y + ".js";
  }

  // ---------------------------------------------------------------------
  // What a script hands back, and its saved settings

  /** A JavaScript value the loader only stores, told apart by identity. */
  datatype JsValue = JsValue(id: nat)

  /** A value saved for a custom setting. */
  datatype PrefValue = PrefBool(b: bool) | PrefNumber(n: int) | PrefText(s: string)

  /**
   * A custom setting the script declares, told apart by identity: the loader
   * reads only its key and its `changed` callback, which is recorded, not run.
   */
  datatype Setting = Setting(id: nat)

  /** The properties of a returned object that the loader reads; `None` when the property is absent. */
  datatype Exported = Exported(unload: Option<JsValue>, settings: Option<map<string, Setting>>)

  /** What the script returned: nothing, a primitive or `null` (where `in` throws), or an object. */
  datatype Returned = ReturnedUndefined | ReturnedNonObject | ReturnedObject(exported: Exported)

  /** Running the script's code: it throws, or it returns. */
  datatype Outcome = Threw | Returned(value: Returned)

  /** The settings file: absent, not valid JSON, or its entries in key order. */
  datatype SavedFile = Missing | Unparsable | Parsed(entries: seq<(string, PrefValue)>)

  /** The saved entries the validator accepts, in key order. */
  function Accepted(entries: seq<(string, PrefValue)>, accepts: string -> bool): seq<(string, PrefValue)> {
    if |entries| == 0 then []
    else (if accepts(entries[0].0) then [entries[0]] else []) + Accepted(entries[1..], accepts)
  }

  /**
   * The `changed` calls the `forEach` makes: one per accepted entry, in key
   * order, until a call throws (that call is made) or an accepted key has no
   * setting (reading `changed` of `undefined` throws); the catch ends the loop.
   */
  function Replayed(entries: seq<(string, PrefValue)>, settings: map<string, Setting>,
                    accepts: string -> bool, throws: (string, PrefValue) -> bool): seq<(string, PrefValue)>
  {
    if |entries| == 0 then []
    else if !accepts(entries[0].0) then Replayed(entries[1..], settings, accepts, throws)
    else if entries[0].0 !in settings then []
    else if throws(entries[0].0, entries[0].1) then [entries[0]]
    else [entries[0]] + Replayed(entries[1..], settings, accepts, throws)
  }

  /** The settings block runs only for a non-empty settings object and a settings file that exists. */
  function ApplyGate(settings: Option<map<string, Setting>>, saved: SavedFile,
                     accepts: string -> bool, throws: (string, PrefValue) -> bool): seq<(string, PrefValue)>
  {
    if settings.None? || |settings.value| == 0 || saved.Missing? || saved.Unparsable? then []
    else Replayed(saved.entries, settings.value, accepts, throws)
  }

  /** Every replayed call is for an accepted saved entry, in key order: a prefix of the accepted entries. */
  lemma {:induction false} ReplayedPrefix(entries: seq<(string, PrefValue)>, settings: map<string, Setting>,
                                          accepts: string -> bool, throws: (string, PrefValue) -> bool)
    ensures var r := Replayed(entries, settings, accepts, throws);
            var a := Accepted(entries, accepts);
            |r| <= |a| && r == a[..|r|]
  {
    if |entries| > 0 {
      ReplayedPrefix(entries[1..], settings, accepts, throws);
    }
  }

  /** When every accepted key has a setting and no callback throws, `changed` runs for exactly the accepted entries. */
  lemma {:induction false} ReplayedAll(entries: seq<(string, PrefValue)>, settings: map<string, Setting>,
                                       accepts: string -> bool, throws: (string, PrefValue) -> bool)
    requires forall k :: 0 <= k < |entries| && accepts(entries[k].0) ==>
               entries[k].0 in settings && !throws(entries[k].0, entries[k].1)
    ensures Replayed(entries, settings, accepts, throws) == Accepted(entries, accepts)
  {
    if |entries| > 0 {
      assert forall k :: 1 <= k < |entries| ==> entries[1..][k - 1] == entries[k];
      ReplayedAll(entries[1..], settings, accepts, throws);
    }
  }

  /** Every call but the last went to a declared setting and returned normally. */
  predicate Proceeds(calls: seq<(string, PrefValue)>, settings: map<string, Setting>, throws: (string, PrefValue) -> bool) {
    forall k :: 0 <= k < |calls| - 1 ==> !throws(calls[k].0, calls[k].1) && calls[k].0 in settings
  }

  /** Every call went to a declared setting. */
  predicate Declared(calls: seq<(string, PrefValue)>, settings: map<string, Setting>) {
    forall k :: 0 <= k < |calls| ==> calls[k].0 in settings
  }

  /**
   * A callback that throws ends the replay: nothing after the first throwing
   * call is replayed. The replay stops short of the accepted entries only at
   * a call that threw or at an accepted key with no setting.
   */
  lemma {:induction false} ReplayedStops(entries: seq<(string, PrefValue)>, settings: map<string, Setting>,
                                         accepts: string -> bool, throws: (string, PrefValue) -> bool)
    ensures Proceeds(Replayed(entries, settings, accepts, throws), settings, throws)
    ensures Declared(Replayed(entries, settings, accepts, throws), settings)
    ensures var r, a := Replayed(entries, settings, accepts, throws), Accepted(entries, accepts);
            |r| < |a| ==> (|r| > 0 && throws(r[|r| - 1].0, r[|r| - 1].1)) || a[|r|].0 !in settings
  {
    ReplayedProceeds(entries, settings, accepts, throws);
    ReplayedDeclared(entries, settings, accepts, throws);
    ReplayedProgress(entries, settings, accepts, throws);
  }

  /** Reading `changed` of an undeclared setting throws before any call, so every call goes to a declared setting. */
  lemma {:induction false} ReplayedDeclared(entries: seq<(string, PrefValue)>, settings: map<string, Setting>,
                                            accepts: string -> bool, throws: (string, PrefValue) -> bool)
    ensures Declared(Replayed(entries, settings, accepts, throws), settings)
  {
    if |entries| > 0 {
      var r, rest := Replayed(entries, settings, accepts, throws), Replayed(entries[1..], settings, accepts, throws);
      ReplayedDeclared(entries[1..], settings, accepts, throws);
      if !accepts(entries[0].0) {
        assert r == rest;
      } else if entries[0].0 in settings && !throws(entries[0].0, entries[0].1) {
        assert r == [entries[0]] + rest;
        forall k | 0 <= k < |r| ensures r[k].0 in settings {
          if k > 0 {
            assert r[k] == rest[k - 1];
          }
        }
      }
    }
  }

  lemma {:induction false} ReplayedProceeds(entries: seq<(string, PrefValue)>, settings: map<string, Setting>,
                                            accepts: string -> bool, throws: (string, PrefValue) -> bool)
    ensures Proceeds(Replayed(entries, settings, accepts, throws), settings, throws)
  {
    if |entries| > 0 && accepts(entries[0].0) && entries[0].0 in settings && !throws(entries[0].0, entries[0].1) {
      ReplayedProceeds(entries[1..], settings, accepts, throws);
      var r := Replayed(entries, settings, accepts, throws);
      var rest := Replayed(entries[1..], settings, accepts, throws);
      assert r == [entries[0]] + rest;
      forall k | 0 <= k < |r| - 1 ensures !throws(r[k].0, r[k].1) && r[k].0 in settings {
        if k == 0 {
          assert r[0] == entries[0];
        } else {
          assert r[k] == rest[k - 1] && k - 1 < |rest| - 1;
        }
      }
      assert Proceeds(r, settings, throws);
    } else if |entries| > 0 && !accepts(entries[0].0) {
      ReplayedProceeds(entries[1..], settings, accepts, throws);
      assert Replayed(entries, settings, accepts, throws) == Replayed(entries[1..], settings, accepts, throws);
    }
  }

  lemma {:induction false} ReplayedProgress(entries: seq<(string, PrefValue)>, settings: map<string, Setting>,
                                            accepts: string -> bool, throws: (string, PrefValue) -> bool)
    ensures var r, a := Replayed(entries, settings, accepts, throws), Accepted(entries, accepts);
            |r| < |a| ==> (|r| > 0 && throws(r[|r| - 1].0, r[|r| - 1].1)) || a[|r|].0 !in settings
  {
    if |entries| > 0 {
      var r, a := Replayed(entries, settings, accepts, throws), Accepted(entries, accepts);
      var r', a' := Replayed(entries[1..], settings, accepts, throws), Accepted(entries[1..], accepts);
      ReplayedProgress(entries[1..], settings, accepts, throws);
      if !accepts(entries[0].0) {
        assert r == r' && a == a';
      } else if entries[0].0 in settings && !throws(entries[0].0, entries[0].1) {
        assert r == [entries[0]] + r' && a == [entries[0]] + a';
        if |r'| > 0 {
          assert r[|r| - 1] == r'[|r'| - 1];
        }
      }
    }
  }

  /** No file, unreadable JSON, or no declared settings: `changed` is never called. */
  lemma ApplyGateClosed(settings: Option<map<string, Setting>>, saved: SavedFile,
                        accepts: string -> bool, throws: (string, PrefValue) -> bool)
    ensures settings.None? ==> ApplyGate(settings, saved, accepts, throws) == []
    ensures settings == Some(map[]) ==> ApplyGate(settings, saved, accepts, throws) == []
    ensures !saved.Parsed? ==> ApplyGate(settings, saved, accepts, throws) == []
  {
  }

  // ---------------------------------------------------------------------
  // The record

  /** `Object.keys(meta)` with every list replaced by its last element. */
  method CollapseEntries(raw: RawMeta) returns (meta: Meta)
    ensures meta == Collapse(raw)
  {
    meta := map[];
    var todo := raw.Keys;
    while todo != {}
      invariant todo <= raw.Keys
      invariant meta.Keys == raw.Keys - todo
      invariant forall k :: k in meta ==> meta[k] == Last(raw[k])
      decreases |todo|
    {
      var key :| key in todo;
      if raw[key].Multi? {
        var vs := raw[key].values;
        meta := meta[key := vs[|vs| - 1]];
      } else {
        meta := meta[key := raw[key].value];
      }
      todo := todo - {key};
    }
  }

  /**
   * The header part of the constructor: look for both markers, find the
   * marker lines, parse the block between them and collapse it.
   */
  method ReadHeader(content: string) returns (m: Option<Meta>)
    ensures m == HeaderMeta(content)
  {
    m := None;
    if HasHeaderMarkers(content) {
      var chunk := Split(content, IsNewline);
      var startLine := if |chunk| == 1 then WrappedIndex(chunk[0], StartMarker) else FindLine(chunk, StartMarker);
      var endLine := if |chunk| == 1 then WrappedIndex(chunk[0], EndMarker) else FindLine(chunk, EndMarker);
      if startLine != -1 && endLine != -1 {
        var block := if startLine <= endLine then chunk[startLine..endLine + 1] else [];
        assert LinesBetween(chunk) == Some(block);
        var collapsed := CollapseEntries(Parse(Join(block, "\n")));
        m := Some(collapsed);
      } else {
        assert LinesBetween(chunk) == None;
      }
    }
  }

  class Userscript {
    const name: string
    /** The settings file name; the directory it is resolved against is not part of this model. */
    const settingsFile: string
    const content: string
    const strictMode: bool
    const meta: Option<Meta>
    const runAt: RunAt
    const priority: Priority
    var unload: Option<JsValue>
    var settings: Option<map<string, Setting>>
    var hasRan: bool
    /** The `changed(value)` calls made on the script's settings so far, in order. */
    var changedCalls: seq<(string, PrefValue)>

    constructor (name: string, settingsFile: string, content: string)
      ensures this.name == name && this.settingsFile == settingsFile && this.content == content
      ensures strictMode == StartsWith(content, StrictPragma)
      ensures meta == HeaderMeta(content)
      ensures runAt == RunAtOf(meta) && priority == PriorityOf(meta)
      ensures unload == None && settings == None && !hasRan && changedCalls == []
    {
      this.name := name;
      this.settingsFile := settingsFile;
      this.content := content;
      strictMode := StartsWith(content, StrictPragma);
      var m := ReadHeader(content);
      var r := DocumentEnd;
      var p := Undefined;
      if m.Some? {
        var collapsed := m.value;
        if "run-at" in collapsed && collapsed["run-at"] == EarlyRunAt {
          r := DocumentStart;
        }
        p := Finite(0);
        if "priority" in collapsed {
          match ParseInt(collapsed["priority"])
          case None => p := NotANumber;
          case Some(n) => p := Finite(n);
        }
      }
      meta := m;
      runAt := r;
      priority := p;
      unload := None;
      settings := None;
      hasRan := false;
      changedCalls := [];
    }

    /**
     * `load` on a given outcome of running the script. It returns whether
     * the error alert was raised. `accepts` stands for the settings
     * validator, and `throws` tells which `changed` calls throw.
     */
    method Load(outcome: Outcome, saved: SavedFile, accepts: string -> bool, throws: (string, PrefValue) -> bool)
      returns (alerted: bool)
      modifies this
      ensures alerted <==> outcome.Threw? || outcome.value.ReturnedNonObject?
      ensures alerted ==> unload == old(unload) && settings == old(settings) && changedCalls == old(changedCalls)
      ensures !alerted && outcome.value.ReturnedObject? && outcome.value.exported.unload.Some? ==>
                unload == outcome.value.exported.unload
      ensures !alerted && outcome.value.ReturnedObject? && outcome.value.exported.settings.Some? ==>
                settings == outcome.value.exported.settings
      ensures !alerted && (outcome.value.ReturnedUndefined? || outcome.value.exported.unload.None?) ==>
                unload == old(unload)
      ensures !alerted && (outcome.value.ReturnedUndefined? || outcome.value.exported.settings.None?) ==>
                settings == old(settings)
      ensures !alerted ==> changedCalls == old(changedCalls) + ApplyGate(settings, saved, accepts, throws)
      ensures hasRan == old(hasRan)
    {
      if outcome.Threw? || outcome.value.ReturnedNonObject? {
        return true;
      }
      if outcome.value.ReturnedObject? {
        var exported := outcome.value.exported;
        if exported.unload.Some? {
          unload := exported.unload;
        }
        if exported.settings.Some? {
          settings := exported.settings;
        }
      }
      if settings.Some? && |settings.value| > 0 && saved.Parsed? {
        var entries, declared := saved.entries, settings.value;
        var calls := changedCalls;
        var i := 0;
        var stopped := false;
        while i < |entries| && !stopped
          invariant 0 <= i <= |entries|
          invariant !stopped ==> changedCalls + Replayed(entries, declared, accepts, throws) ==
                                 calls + Replayed(entries[i..], declared, accepts, throws)
          invariant stopped ==> calls == changedCalls + Replayed(entries, declared, accepts, throws)
          decreases |entries| - i
        {
          var (key, value) := entries[i];
          if accepts(key) {
            if key !in declared {
              stopped := true;
            } else {
              calls := calls + [(key, value)];
              if throws(key, value) {
                stopped := true;
              }
            }
          }
          i := i + 1;
        }
        assert entries[|entries|..] == [];
        changedCalls := calls;
      }
      return false;
    }
  }
}
