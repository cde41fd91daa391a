/**
 * The `main_initializes_userscripts` handler: discover the `.js` files of
 * the userscripts directory, reconcile `tracker.json`, sort the scripts by
 * priority and dispatch the enabled ones, either at once (`document-start`)
 * or on `DOMContentLoaded` (`document-end`). Loading a script is recorded as
 * its place in one of the two dispatch lists.
 */
module Loader {
  import opened Text
  import opened ScriptRecord
  import opened Tracker
  import opened Schedule
  import opened Wrappers

  /** `readdirSync(...).filter(entry => entry.name.endsWith('.js'))`, in listing order. */
  function ScriptNames(entries: seq<string>): (r: seq<string>)
    ensures forall n :: n in r <==> n in entries && EndsWith(n, ".js")
  {
    if |entries| == 0 then []
    else
      var last := entries[|entries| - 1];
      assert entries == entries[..|entries| - 1] + [last];
      ScriptNames(entries[..|entries| - 1]) + (if EndsWith(last, ".js") then [last] else [])
  }

  lemma ScriptNamesStep(entries: seq<string>, k: nat)
    requires k < |entries|
    ensures ScriptNames(entries[..k + 1]) == ScriptNames(entries[..k]) + (if EndsWith(entries[k], ".js") then [entries[k]] else [])
  {
    assert entries[..k + 1][..k] == entries[..k];
  }

  function Names(us: seq<Userscript>): (r: seq<string>)
    ensures |r| == |us| && forall k :: 0 <= k < |us| ==> r[k] == us[k].name
  {
    seq(|us|, k requires 0 <= k < |us| => us[k].name)
  }

  /** The record the constructor derives for the file `name` whose text `read` gives, not yet run. */
  predicate Built(u: Userscript, read: string -> string)
    reads u
  {
    && u.settingsFile == SettingsFileName(u.name)
    && u.content == read(u.name)
    && u.strictMode == StartsWith(u.content, StrictPragma)
    && u.meta == HeaderMeta(u.content)
    && u.runAt == RunAtOf(u.meta)
    && u.priority == PriorityOf(u.meta)
    && u.unload == None && u.settings == None && !u.hasRan && u.changedCalls == []
  }

  /** The sort compares numbers only when every priority is a number. */
  predicate AllFinite(us: seq<Userscript>) {
    forall k :: 0 <= k < |us| ==> us[k].priority.Finite?
  }

  function Priorities(us: seq<Userscript>): (r: seq<int>)
    requires AllFinite(us)
    ensures |r| == |us| && forall k :: 0 <= k < |us| ==> r[k] == us[k].priority.n
  {
    seq(|us|, k requires 0 <= k < |us| && AllFinite(us) => us[k].priority.n)
  }

  /** The scripts in the order the indices give. */
  function Arrange(us: seq<Userscript>, ord: seq<nat>): (r: seq<Userscript>)
    requires InRange(ord, |us|)
    ensures |r| == |ord| && forall k :: 0 <= k < |ord| ==> r[k] == us[ord[k]]
  {
    seq(|ord|, k requires 0 <= k < |ord| && InRange(ord, |us|) => us[ord[k]])
  }

  /** Script `i` is enabled and runs at `when`. */
  predicate Runs(us: seq<Userscript>, tracker: map<string, bool>, i: nat, when: RunAt) {
    i < |us| && Enabled(tracker, us[i].name) && us[i].runAt == when
  }

  /** The indices of `ord`, in order, of the enabled scripts that run at `when`. */
  function Pick(us: seq<Userscript>, tracker: map<string, bool>, ord: seq<nat>, when: RunAt): (r: seq<nat>)
    ensures InRange(r, |us|)
  {
    if |ord| == 0 then []
    else
      var last := ord[|ord| - 1];
      Pick(us, tracker, ord[..|ord| - 1], when) + (if Runs(us, tracker, last, when) then [last] else [])
  }

  lemma NamesSnoc(us: seq<Userscript>, u: Userscript)
    ensures Names(us + [u]) == Names(us) + [u.name]
  {
  }

  lemma ArrangeSnoc(us: seq<Userscript>, ord: seq<nat>, i: nat)
    requires InRange(ord, |us|) && i < |us|
    ensures InRange(ord + [i], |us|)
    ensures Arrange(us, ord + [i]) == Arrange(us, ord) + [us[i]]
  {
    assert InRange(ord + [i], |us|) by {
      forall k | 0 <= k < |ord| + 1 ensures (ord + [i])[k] < |us| {
        if k < |ord| {
          assert (ord + [i])[k] == ord[k];
        }
      }
    }
  }

  lemma PickStep(us: seq<Userscript>, tracker: map<string, bool>, ord: seq<nat>, k: nat, when: RunAt)
    requires k < |ord|
    ensures Pick(us, tracker, ord[..k + 1], when) == Pick(us, tracker, ord[..k], when) + (if Runs(us, tracker, ord[k], when) then [ord[k]] else [])
  {
    assert ord[..k + 1][..k] == ord[..k];
  }

  // ---------------------------------------------------------------------
  // Properties of the dispatch plan

  /** A script is picked exactly when it is in the order, enabled, and runs at `when`. */
  lemma {:induction false} PickMembers(us: seq<Userscript>, tracker: map<string, bool>, ord: seq<nat>, when: RunAt, i: nat)
    ensures i in Pick(us, tracker, ord, when) <==> i in ord && Runs(us, tracker, i, when)
  {
    if |ord| > 0 {
      PickMembers(us, tracker, ord[..|ord| - 1], when, i);
      assert ord == ord[..|ord| - 1] + [ord[|ord| - 1]];
    }
  }

  lemma OrderedSnoc(p: seq<int>, s: seq<nat>, x: nat)
    requires x < |p| && InRange(s, |p|) && Ordered(p, s)
    requires forall k :: 0 <= k < |s| ==> Before(p, s[k], x)
    ensures InRange(s + [x], |p|) && Ordered(p, s + [x])
  {
    var r := s + [x];
    forall a, b | 0 <= a < b < |r| ensures Before(p, r[a], r[b]) {
      assert r[a] == s[a];
      if b < |s| {
        assert r[b] == s[b];
      }
    }
  }

  /** Every picked script is enabled and runs at `when`. */
  lemma PickRuns(us: seq<Userscript>, tracker: map<string, bool>, ord: seq<nat>, when: RunAt)
    ensures var r := Pick(us, tracker, ord, when);
            forall k :: 0 <= k < |r| ==> Enabled(tracker, us[r[k]].name) && us[r[k]].runAt == when
  {
    var r := Pick(us, tracker, ord, when);
    forall k | 0 <= k < |r| ensures Enabled(tracker, us[r[k]].name) && us[r[k]].runAt == when {
      PickMembers(us, tracker, ord, when, r[k]);
    }
  }

  /** Picking keeps the sorted order: each dispatch list is in priority order, ties in discovery order. */
  lemma {:induction false} PickOrdered(us: seq<Userscript>, tracker: map<string, bool>, ord: seq<nat>, when: RunAt, p: seq<int>)
    requires |p| == |us| && InRange(ord, |p|) && Ordered(p, ord)
    ensures Ordered(p, Pick(us, tracker, ord, when))
  {
    if |ord| > 0 {
      var front, last := ord[..|ord| - 1], ord[|ord| - 1];
      assert Ordered(p, front) by {
        forall a, b | 0 <= a < b < |front| ensures Before(p, front[a], front[b]) {
          assert front[a] == ord[a] && front[b] == ord[b];
        }
      }
      PickOrdered(us, tracker, front, when, p);
      var picked := Pick(us, tracker, front, when);
      if Runs(us, tracker, last, when) {
        forall k | 0 <= k < |picked| ensures Before(p, picked[k], last) {
          PickMembers(us, tracker, front, when, picked[k]);
          var m :| 0 <= m < |front| && front[m] == picked[k];
          assert ord[m] == picked[k];
        }
        OrderedSnoc(p, picked, last);
      }
    }
  }

  /** Of the scripts in the sorted order, the enabled ones are dispatched once each: early ones at once, the rest deferred. */
  lemma PlanPartition(us: seq<Userscript>, tracker: map<string, bool>, i: nat)
    requires AllFinite(us) && i < |us|
    ensures var ord := StableOrder(Priorities(us));
            var early, late := Pick(us, tracker, ord, DocumentStart), Pick(us, tracker, ord, DocumentEnd);
            (i in early <==> Enabled(tracker, us[i].name) && us[i].runAt == DocumentStart)
            && (i in late <==> Enabled(tracker, us[i].name) && us[i].runAt == DocumentEnd)
  {
    var p := Priorities(us);
    var ord := StableOrder(p);
    StableOrderCorrect(p);
    assert i in multiset(Indices(|p|)) by {
      assert Indices(|p|)[i] == i;
    }
    assert i in ord;
    PickMembers(us, tracker, ord, DocumentStart, i);
    PickMembers(us, tracker, ord, DocumentEnd, i);
  }

  // ---------------------------------------------------------------------
  // The shared loader state

  class Loader {
    var userscripts: seq<Userscript>
    var tracker: map<string, bool>
    /** Scripts loaded at once, in load order. */
    var immediate: seq<Userscript>
    /** Scripts registered for `DOMContentLoaded`, in registration order. */
    var deferred: seq<Userscript>

    constructor ()
      ensures userscripts == [] && tracker == map[] && immediate == [] && deferred == []
    {
      userscripts := [];
      tracker := map[];
      immediate := [];
      deferred := [];
    }

    /** One `Userscript` per `.js` entry of the listing, in listing order; `read` gives a file's text. */
    method Discover(entries: seq<string>, read: string -> string)
      modifies this
      ensures Names(userscripts) == ScriptNames(entries)
      ensures forall k :: 0 <= k < |userscripts| ==> Built(userscripts[k], read) && fresh(userscripts[k])
      ensures tracker == old(tracker) && immediate == old(immediate) && deferred == old(deferred)
    {
      var found: seq<Userscript> := [];
      var k := 0;
      while k < |entries|
        invariant 0 <= k <= |entries|
        invariant Names(found) == ScriptNames(entries[..k])
        invariant forall j :: 0 <= j < |found| ==> Built(found[j], read) && fresh(found[j])
        invariant tracker == old(tracker) && immediate == old(immediate) && deferred == old(deferred)
      {
        var name := entries[k];
        ScriptNamesStep(entries, k);
        if EndsWith(name, ".js") {
          var u := new Userscript(name, SettingsFileName(name), read(name));
          NamesSnoc(found, u);
          found := found + [u];
        }
        k := k + 1;
      }
      assert entries[..|entries|] == entries;
      userscripts := found;
    }

    /** Seed every discovered name as disabled, lay the saved tracker over it, and return what is written back. */
    method ReconcileTracker(persisted: map<string, bool>) returns (written: map<string, bool>)
      modifies this
      ensures tracker == Merge(Names(userscripts), persisted) && written == tracker
      ensures userscripts == old(userscripts) && immediate == old(immediate) && deferred == old(deferred)
    {
      var us := userscripts;
      var names := Names(us);
      var t: map<string, bool> := map[];
      var k := 0;
      while k < |us|
        invariant 0 <= k <= |us|
        invariant t == Seeded(names[..k])
        invariant userscripts == us && immediate == old(immediate) && deferred == old(deferred)
      {
        assert names[..k + 1] == names[..k] + [names[k]];
        SeededSnoc(names[..k], names[k]);
        t := t[us[k].name := false];
        k := k + 1;
      }
      assert names[..|us|] == names;
      t := t + persisted;
      tracker := t;
      written := t;
    }

    /** Sort by priority, then load the enabled early scripts at once and defer the other enabled ones. */
    method Dispatch()
      requires AllFinite(userscripts)
      modifies this
      ensures var ord := StableOrder(Priorities(old(userscripts)));
              && userscripts == Arrange(old(userscripts), ord)
              && immediate == Arrange(old(userscripts), Pick(old(userscripts), tracker, ord, DocumentStart))
              && deferred == Arrange(old(userscripts), Pick(old(userscripts), tracker, ord, DocumentEnd))
      ensures tracker == old(tracker)
    {
      var found := userscripts;
      var ord := StableOrder(Priorities(found));
      var sorted := Arrange(found, ord);
      var early: seq<Userscript> := [];
      var late: seq<Userscript> := [];
      var k := 0;
      while k < |sorted|
        invariant 0 <= k <= |sorted|
        invariant early == Arrange(found, Pick(found, tracker, ord[..k], DocumentStart))
        invariant late == Arrange(found, Pick(found, tracker, ord[..k], DocumentEnd))
        invariant userscripts == found && tracker == old(tracker)
      {
        var u := sorted[k];
        PickStep(found, tracker, ord, k, DocumentStart);
        PickStep(found, tracker, ord, k, DocumentEnd);
        if u.name in tracker && tracker[u.name] {
          if u.runAt == DocumentStart {
            ArrangeSnoc(found, Pick(found, tracker, ord[..k], DocumentStart), ord[k]);
            early := early + [u];
          } else {
            ArrangeSnoc(found, Pick(found, tracker, ord[..k], DocumentEnd), ord[k]);
            late := late + [u];
          }
        }
        k := k + 1;
      }
      assert ord[..|sorted|] == ord;
      userscripts := sorted;
      immediate := early;
      deferred := late;
    }

    /**
     * The whole handler: discovery, tracker reconciliation, sort and
     * dispatch. It returns the tracker written back to `tracker.json`;
     * `found` names the scripts in discovery order.
     */
    method Initialize(entries: seq<string>, read: string -> string, persisted: map<string, bool>)
      returns (written: map<string, bool>, ghost found: seq<Userscript>)
      requires forall n :: n in entries && EndsWith(n, ".js") ==> PriorityOf(HeaderMeta(read(n))).Finite?
      modifies this
      ensures Names(found) == ScriptNames(entries) && AllFinite(found)
      ensures forall k :: 0 <= k < |found| ==> Built(found[k], read)
      ensures tracker == Merge(Names(found), persisted) && written == tracker
      ensures var ord := StableOrder(Priorities(found));
              && userscripts == Arrange(found, ord)
              && immediate == Arrange(found, Pick(found, tracker, ord, DocumentStart))
              && deferred == Arrange(found, Pick(found, tracker, ord, DocumentEnd))
      ensures forall k :: 0 <= k < |immediate| ==> Enabled(tracker, immediate[k].name) && immediate[k].runAt == DocumentStart
      ensures forall k :: 0 <= k < |deferred| ==> Enabled(tracker, deferred[k].name) && deferred[k].runAt == DocumentEnd
    {
      Discover(entries, read);
      assert AllFinite(userscripts) by {
        forall k | 0 <= k < |userscripts| ensures userscripts[k].priority.Finite? {
          assert Names(userscripts)[k] in ScriptNames(entries);
        }
      }
      written := ReconcileTracker(persisted);
      found := userscripts;
      Dispatch();
      var ord := StableOrder(Priorities(found));
      PickRuns(found, tracker, ord, DocumentStart);
      PickRuns(found, tracker, ord, DocumentEnd);
    }
  }
}
