/** The gate that opens when every watcher has finished its first build, though their number arrives late. */
module ReadinessGate {
  import opened Options
  import opened Sorting

  /** A watcher's option object, by identity. */
  type Watcher = nat

  /** What happens around the gate: a build completes, or the number of bundles becomes known. */
  datatype Event = BuildDone(watcher: Watcher) | BundlesKnown(count: nat)

  /** The watchers that have completed at least one build. */
  function Finished(events: seq<Event>): set<Watcher> {
    set i | 0 <= i < |events| && events[i].BuildDone? :: events[i].watcher
  }

  /** The bundle count is announced at most once. */
  predicate AnnouncedOnce(events: seq<Event>) {
    forall i, j | 0 <= i < j < |events| && events[i].BundlesKnown? :: !events[j].BundlesKnown?
  }

  /** Some announced count is reached by the watchers that have finished. */
  predicate Ready(events: seq<Event>) {
    exists i :: 0 <= i < |events| && events[i].BundlesKnown? && |Finished(events)| >= events[i].count
  }

  lemma FinishedSnoc(events: seq<Event>, e: Event)
    ensures Finished(events + [e]) == if e.BuildDone? then Finished(events) + {e.watcher} else Finished(events)
  {
    var more := events + [e];
    var now := if e.BuildDone? then Finished(events) + {e.watcher} else Finished(events);
    forall w ensures w in Finished(more) <==> w in now {
      if w in Finished(events) {
        var i :| 0 <= i < |events| && events[i].BuildDone? && events[i].watcher == w;
        assert more[i].BuildDone? && more[i].watcher == w;
      }
      if e == BuildDone(w) {
        assert more[|events|].BuildDone? && more[|events|].watcher == w;
      }
    }
  }

  /** The gate's counters, as the build hook and the starting routine update them. */
  class Gate {
    var initialized: set<Watcher>
    var initializedBuilds: nat
    var expectedBuilds: Option<nat>
    var resolved: bool
    ghost var events: seq<Event>

    /** The gate is open exactly when the events so far call for it. */
    ghost predicate Valid()
      reads this
    {
      && initialized == Finished(events) && initializedBuilds == |initialized|
      && AnnouncedOnce(events)
      && (forall i | 0 <= i < |events| && events[i].BundlesKnown? :: expectedBuilds == Some(events[i].count))
      && (expectedBuilds.Some? ==> exists i :: 0 <= i < |events| && events[i] == BundlesKnown(expectedBuilds.value))
      && (resolved <==> Ready(events))
    }

    constructor ()
      ensures Valid() && events == [] && !resolved
    {
      initialized, initializedBuilds, expectedBuilds, resolved, events := {}, 0, None, false, [];
    }

    method OnBuildDone(watcher: Watcher)
      requires Valid()
      modifies this
      ensures Valid() && events == old(events) + [BuildDone(watcher)]
      ensures old(resolved) ==> resolved
    {
      FinishedSnoc(events, BuildDone(watcher));
      ReadyGrows(events, BuildDone(watcher));
      ghost var before := events;
      events := events + [BuildDone(watcher)];
      KeepsAnnouncement(before, watcher);
      if watcher in initialized {
        assert Finished(events) == Finished(before);
        return;
      }
      initialized := initialized + {watcher};
      initializedBuilds := initializedBuilds + 1;
      if expectedBuilds.Some? && initializedBuilds >= expectedBuilds.value {
        resolved := true;
      }
    }

    /** The build call returns and the number of bundles becomes known. */
    method OnBundlesKnown(count: nat)
      requires Valid() && expectedBuilds.None?
      modifies this
      ensures Valid() && events == old(events) + [BundlesKnown(count)]
    {
      FinishedSnoc(events, BundlesKnown(count));
      ghost var before := events;
      assert forall i | 0 <= i < |before| :: !before[i].BundlesKnown?;
      events := events + [BundlesKnown(count)];
      assert events[|before|] == BundlesKnown(count);
      expectedBuilds := Some(count);
      if initializedBuilds >= count {
        resolved := true;
      }
    }
  }

  /** Another completed build neither adds nor hides an announcement. */
  lemma KeepsAnnouncement(events: seq<Event>, watcher: Watcher)
    ensures AnnouncedOnce(events) ==> AnnouncedOnce(events + [BuildDone(watcher)])
    ensures forall n :: (exists i :: 0 <= i < |events| && events[i] == BundlesKnown(n))
                   <==> (exists i :: 0 <= i < |events| + 1 && (events + [BuildDone(watcher)])[i] == BundlesKnown(n))
  {
    var more := events + [BuildDone(watcher)];
    forall n ensures (exists i :: 0 <= i < |events| && events[i] == BundlesKnown(n))
                <==> (exists i :: 0 <= i < |events| + 1 && more[i] == BundlesKnown(n)) {
      if i :| 0 <= i < |events| && events[i] == BundlesKnown(n) {
        assert more[i] == BundlesKnown(n);
      }
    }
  }

  /** A gate that should be open stays so: no event takes readiness back. */
  lemma ReadyGrows(events: seq<Event>, e: Event)
    ensures Ready(events) ==> Ready(events + [e])
  {
    if Ready(events) {
      var i :| 0 <= i < |events| && events[i].BundlesKnown? && |Finished(events)| >= events[i].count;
      FinishedSnoc(events, e);
      SubsetSize(Finished(events), Finished(events + [e]));
      assert (events + [e])[i] == events[i];
    }
  }
}
