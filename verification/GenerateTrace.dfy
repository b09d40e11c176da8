/** The trace pass 3 leaves: which features have been declared, and in which order their generation
    completed. Pure laws, used step by step by Registry.GenerateFeature. */
module GenerateTrace {
  import opened Graphs
  import opened RegistryModel

  /** One completed generation: the generator is called for key exactly when emitted is true. */
  datatype Entry = Entry(key: Key, emitted: bool)

  /** The calls pass 3 may make, for a fixed set of required features. */
  datatype Plan = Plan(
    calls: Graph<Key>,          // dependencies and follow-ups
    dependencies: Graph<Key>,   // dependencies only
    crashing: set<Key>,         // aliases of enumerated types without a group
    skipped: set<Key>)          // enumerated types without a group

  /** The features in req whose generation raises an exception. */
  ghost function Crashing(cat: Catalog, groups: Groups, req: set<Key>): set<Key> {
    set k | k in req && k in cat && OutcomeOf(cat[k], groups, k).Crash?
  }

  /** The plan for the features in req. */
  ghost function PlanFor(cat: Catalog, o: GenOpts, groups: Groups, req: set<Key>): Plan
    requires req <= cat.Keys
  {
    Plan(GenerateGraph(cat, o, groups, req),
         map k | k in req :: Dependencies(cat[k], o, k),
         Crashing(cat, groups, req),
         set k | k in req && OutcomeOf(cat[k], groups, k).NoGroup?)
  }

  ghost function Completed(log: seq<Entry>): set<Key> {
    set e | e in log :: e.key
  }

  ghost predicate Distinct(log: seq<Entry>) {
    forall i, j :: 0 <= i < j < |log| ==> log[i].key != log[j].key
  }

  /** Every dependency of k is among `earlier`, unless k is in turn one of its requirements. */
  ghost predicate AfterDependencies(p: Plan, earlier: set<Key>, k: Key) {
    k in p.dependencies &&
    forall d :: d in p.dependencies[k] && d in p.calls ==> d in earlier || k in Reach(p.calls, {d})
  }

  ghost predicate Ordered(p: Plan, log: seq<Entry>) {
    forall i :: 0 <= i < |log| ==> AfterDependencies(p, Completed(log[..i]), log[i].key)
  }

  /** What the processing of one feature may do: declare within `limit` and add to the log `earlier`,
      emitting if `emit`. */
  datatype Scope = Scope(plan: Plan, limit: set<Key>, earlier: seq<Entry>, emit: bool)

  /** The entries added in this scope are emitted as they should be. */
  ghost predicate EmittedInScope(s: Scope, log: seq<Entry>) {
    && s.earlier <= log
    && forall i :: |s.earlier| <= i < |log| ==> log[i].emitted == (s.emit && log[i].key !in s.plan.skipped)
  }

  /** Consistency of declared flags and log. `pending` are the features whose dependencies are being
      generated, `open` those together with the ones whose follow-up is being generated. */
  ghost predicate Consistent(s: Scope, declared: set<Key>, log: seq<Entry>, pending: set<Key>, open: set<Key>) {
    var p := s.plan;
    && p.dependencies.Keys == p.calls.Keys
    && pending <= open <= declared <= s.limit <= p.calls.Keys
    && Closed(p.calls, s.limit)
    && Completed(log) == declared - pending
    && Distinct(log)
    && Ordered(p, log)
    && EmittedInScope(s, log)
    && Completed(log) !! p.crashing
    && (forall d :: d in declared && d !in open ==> p.calls[d] * p.calls.Keys <= declared)
  }

  lemma Enter(s: Scope, declared: set<Key>, log: seq<Entry>, pending: set<Key>, open: set<Key>, k: Key)
    requires Consistent(s, declared, log, pending, open)
    requires k in s.limit && k !in declared
    ensures Consistent(s, declared + {k}, log, pending + {k}, open + {k})
  {
  }

  /** The dependencies of k are declared, and what is still pending leads to k: k completes in order. */
  lemma Complete(s: Scope, declared: set<Key>, log: seq<Entry>, pending: set<Key>, open: set<Key>, e: Entry)
    requires Consistent(s, declared, log, pending, open)
    requires e.key in pending && e.key !in s.plan.crashing
    requires e.emitted == (s.emit && e.key !in s.plan.skipped)
    requires s.plan.dependencies[e.key] * s.plan.calls.Keys <= declared
    requires forall q :: q in pending ==> e.key in Reach(s.plan.calls, {q})
    ensures Consistent(s, declared, log + [e], pending - {e.key}, open)
  {
    var longer := log + [e];
    assert Completed(longer) == Completed(log) + {e.key};
    forall i | 0 <= i < |longer|
      ensures AfterDependencies(s.plan, Completed(longer[..i]), longer[i].key)
    {
      assert longer[..i] == log[..i];
      if i == |log| {
        assert log[..i] == log;
      }
    }
  }

  /** k completes after its dependencies, and leaves those that are pending. */
  lemma Finish(s: Scope, declared: set<Key>, log: seq<Entry>, pending: set<Key>, open: set<Key>, e: Entry)
    requires Consistent(s, declared, log, pending + {e.key}, open + {e.key})
    requires e.key !in pending && e.key !in s.plan.crashing
    requires e.emitted == (s.emit && e.key !in s.plan.skipped)
    requires s.plan.dependencies[e.key] * s.plan.calls.Keys <= declared
    requires forall q :: q in pending ==> e.key in Reach(s.plan.calls, {q})
    ensures Consistent(s, declared, log + [e], pending, open + {e.key})
  {
    ReachUnfold(s.plan.calls, e.key);
    Complete(s, declared, log, pending + {e.key}, open + {e.key}, e);
    assert pending + {e.key} - {e.key} == pending;
  }

  /** Calling on from k to its successors: whatever leads to k, and k itself, leads to them. */
  lemma Onward(s: Scope, declared: set<Key>, log: seq<Entry>, pending: set<Key>, open: set<Key>,
               leading: set<Key>, k: Key, next: set<Key>)
    requires Consistent(s, declared, log, pending, open) && k in open
    requires next <= s.plan.calls[k]
    requires forall q :: q in leading ==> k in Reach(s.plan.calls, {q})
    ensures next * s.plan.calls.Keys <= s.limit
    ensures forall d, q :: d in next && d in s.plan.calls && q in leading + {k}
              ==> d in Reach(s.plan.calls, {q})
  {
    ReachUnfold(s.plan.calls, k);
    forall d, q | d in next && d in s.plan.calls && q in leading + {k}
      ensures d in Reach(s.plan.calls, {q})
    {
      ReachStep(s.plan.calls, {q}, k, d);
    }
    assert forall d :: d in next * s.plan.calls.Keys ==> Edge(s.plan.calls, k, d);
  }

  lemma Leave(s: Scope, declared: set<Key>, log: seq<Entry>, pending: set<Key>, open: set<Key>, k: Key)
    requires Consistent(s, declared, log, pending, open)
    requires k in open && k !in pending && s.plan.calls[k] * s.plan.calls.Keys <= declared
    ensures Consistent(s, declared, log, pending, open - {k})
  {
  }

  /** With nothing in progress, what has been declared is exactly what the given roots reach. */
  lemma DeclaredIsReached(s: Scope, declared: set<Key>, log: seq<Entry>, roots: set<Key>)
    requires Consistent(s, declared, log, {}, {})
    requires roots * s.plan.calls.Keys <= declared && s.limit == Reach(s.plan.calls, roots)
    ensures declared == Completed(log) == Reach(s.plan.calls, roots)
  {
    assert forall x, y :: x in declared && Edge(s.plan.calls, x, y) ==> y in s.plan.calls[x] * s.plan.calls.Keys;
    ReachLeast(s.plan.calls, roots, declared);
  }

  /** Going on to the next feature. */
  lemma NextScope(s: Scope, declared: set<Key>, log: seq<Entry>, limit: set<Key>, emit: bool)
    requires Consistent(s, declared, log, {}, {})
    requires declared <= limit <= s.plan.calls.Keys && Closed(s.plan.calls, limit)
    ensures Consistent(Scope(s.plan, limit, log, emit), declared, log, {}, {})
  {
  }

  lemma FirstScope(p: Plan)
    requires p.dependencies.Keys == p.calls.Keys
    ensures Consistent(Scope(p, {}, [], false), {}, [], {}, {})
  {
  }

  /** What the first j + 1 features reach, next to what the first j and all of them do. */
  lemma FeatureLimits(p: Plan, o: GenOpts, groups: Groups, fs: seq<Feature>, j: nat)
    requires j < |fs|
    ensures Reach(p.calls, ExplicitRoots(fs[..j], o, groups)) <= Reach(p.calls, ExplicitRoots(fs[..j + 1], o, groups))
    ensures Reach(p.calls, ExplicitRoots(fs[..j + 1], o, groups)) <= Reach(p.calls, ExplicitRoots(fs, o, groups))
    ensures TagRoots(fs[j].requireTags, o, groups) * p.calls.Keys
            <= Reach(p.calls, ExplicitRoots(fs[..j + 1], o, groups))
    ensures forall D :: Reach(p.calls, ExplicitRoots(fs[..j], o, groups)) <= D
                        && TagRoots(fs[j].requireTags, o, groups) * p.calls.Keys <= D
                        ==> ExplicitRoots(fs[..j + 1], o, groups) * p.calls.Keys <= D
  {
    ExplicitRootsNext(fs, o, groups, j);
    ReachMonotone(p.calls, ExplicitRoots(fs[..j], o, groups), ExplicitRoots(fs[..j + 1], o, groups));
    ReachMonotone(p.calls, ExplicitRoots(fs[..j + 1], o, groups), ExplicitRoots(fs, o, groups));
  }

  /** What feature j is the first to reach is emitted exactly if j is tagged for emission (and the
      item is not an enumerated type without a group). */
  ghost predicate EmittedByFirst(
    p: Plan, o: GenOpts, groups: Groups, fs: seq<Feature>, j: nat, log: seq<Entry>)
    requires j < |fs|
  {
    forall i :: 0 <= i < |log|
                && log[i].key in Reach(p.calls, ExplicitRoots(fs[..j + 1], o, groups))
                && log[i].key !in Reach(p.calls, ExplicitRoots(fs[..j], o, groups))
                ==> log[i].emitted == (fs[j].emit && log[i].key !in p.skipped)
  }

  /** Processing feature j keeps that true of the earlier features and makes it true of j. */
  lemma EmittedByNext(s: Scope, o: GenOpts, groups: Groups, fs: seq<Feature>, j: nat, log: seq<Entry>)
    requires j < |fs| && s.emit == fs[j].emit
    requires EmittedInScope(s, log) && Distinct(log)
    requires Completed(s.earlier) == Reach(s.plan.calls, ExplicitRoots(fs[..j], o, groups))
    requires forall i :: 0 <= i < j ==> EmittedByFirst(s.plan, o, groups, fs, i, s.earlier)
    ensures forall i :: 0 <= i <= j ==> EmittedByFirst(s.plan, o, groups, fs, i, log)
  {
    EarlierEntries(s, log);
    forall i, m | 0 <= i <= j && 0 <= m < |log|
                  && log[m].key in Reach(s.plan.calls, ExplicitRoots(fs[..i + 1], o, groups))
                  && log[m].key !in Reach(s.plan.calls, ExplicitRoots(fs[..i], o, groups))
      ensures log[m].emitted == (fs[i].emit && log[m].key !in s.plan.skipped)
    {
      if i < j {
        EarlierRoots(o, groups, fs, i + 1, j);
        ReachMonotone(s.plan.calls, ExplicitRoots(fs[..i + 1], o, groups), ExplicitRoots(fs[..j], o, groups));
        assert EmittedByFirst(s.plan, o, groups, fs, i, s.earlier);
      }
    }
  }

  lemma EarlierEntries(s: Scope, log: seq<Entry>)
    requires s.earlier <= log && Distinct(log)
    ensures forall m :: 0 <= m < |log| ==> (m < |s.earlier| <==> log[m].key in Completed(s.earlier))
  {
    forall m | 0 <= m < |log|
      ensures m < |s.earlier| <==> log[m].key in Completed(s.earlier)
    {
      if m < |s.earlier| {
        assert s.earlier[m] == log[m];
      } else {
        assert forall n :: 0 <= n < |s.earlier| ==> s.earlier[n] == log[n] && log[n].key != log[m].key;
      }
    }
  }

  lemma EarlierRoots(o: GenOpts, groups: Groups, fs: seq<Feature>, i: nat, j: nat)
    requires i <= j <= |fs|
    ensures ExplicitRoots(fs[..i], o, groups) <= ExplicitRoots(fs[..j], o, groups)
  {
    assert forall f :: f in fs[..i] ==> f in fs[..j];
  }

  /** If no feature requires itself through others, all its dependencies are complete before it is. */
  lemma DependenciesFirst(p: Plan, log: seq<Entry>, i: nat, d: Key)
    requires Ordered(p, log) && AcyclicButLoops(p.calls)
    requires forall k :: k in p.dependencies && k in p.calls ==> p.dependencies[k] <= p.calls[k]
    requires i < |log| && log[i].key in p.calls
    requires d in p.dependencies[log[i].key] && d in p.calls && d != log[i].key
    ensures d in Completed(log[..i])
  {
    var k := log[i].key;
    assert AfterDependencies(p, Completed(log[..i]), k);
    assert d in (p.calls[k] - {k}) * p.calls.Keys;
    ReachTransitive(p.calls, p.calls[k] - {k}, {d});
  }
}
