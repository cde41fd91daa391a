/**
 * `tracker.json`: which userscripts are enabled. Every discovered script is
 * first entered as disabled, then the saved tracker is laid over it with
 * `Object.assign`, so saved choices win and saved names with no script
 * behind them are kept.
 */
module Tracker {

  /** Every discovered name entered as disabled. */
  function Seeded(names: seq<string>): (t: map<string, bool>)
    ensures forall n :: n in t <==> n in names
    ensures forall n :: n in t ==> !t[n]
  {
    map n | n in names :: false
  }

  /** Seeding one more name adds it as disabled. */
  lemma SeededSnoc(names: seq<string>, n: string)
    ensures Seeded(names + [n]) == Seeded(names)[n := false]
  {
    var a, b := Seeded(names + [n]), Seeded(names)[n := false];
    assert forall x :: x in a <==> x in b;
  }

  /** `Object.assign(seeded, persisted)`: the persisted entries win. */
  function Merge(names: seq<string>, persisted: map<string, bool>): (t: map<string, bool>)
    ensures forall n :: n in t <==> n in names || n in persisted
    ensures forall n :: n in persisted ==> t[n] == persisted[n]
    ensures forall n :: n in names && n !in persisted ==> !t[n]
  {
    Seeded(names) + persisted
  }

  /** A script is run only when its tracker entry is true. */
  predicate Enabled(tracker: map<string, bool>, name: string) {
    name in tracker && tracker[name]
  }

  /** Reading back the written tracker and reconciling again changes nothing. */
  lemma MergeIdempotent(names: seq<string>, persisted: map<string, bool>)
    ensures Merge(names, Merge(names, persisted)) == Merge(names, persisted)
  {
    var once := Merge(names, persisted);
    var twice := Merge(names, once);
    assert forall n :: n in twice <==> n in once;
    assert forall n :: n in twice ==> twice[n] == once[n];
  }

  /** A new script is disabled; a saved choice is kept. */
  lemma MergeEnabled(names: seq<string>, persisted: map<string, bool>, name: string)
    requires name in names
    ensures Enabled(Merge(names, persisted), name) <==> Enabled(persisted, name)
  {
  }

  /**
   * `{A, B}` over an empty saved tracker gives `{A: false, B: false}`; over
   * the saved `{A: true, C: true}` it gives `{A: true, B: false, C: true}`.
   */
  lemma MergeExample()
    ensures Merge(["A", "B"], map[]) == map["A" := false, "B" := false]
    ensures Merge(["A", "B"], map["A" := true, "C" := true]) == map["A" := true, "B" := false, "C" := true]
  {
    assert "A" in ["A", "B"] && "B" in ["A", "B"];
    var s := Merge(["A", "B"], map[]);
    assert s.Keys == {"A", "B"};
    var t := Merge(["A", "B"], map["A" := true, "C" := true]);
    assert t.Keys == {"A", "B", "C"};
  }
}
