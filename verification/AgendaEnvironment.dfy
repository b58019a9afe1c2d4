/** The agendas of all modules of an environment.  They share one strategy, one counter of
    activations and one source of time tags. */
module AgendaEnvironment {
  import opened Agenda
  import opened AgendaOrder
  import opened SalienceIndex

  /** The time tags of all activations are below `next` and different. */
  ghost predicate TagsOf(all: set<Activation>, next: nat) {
    && (forall a :: a in all ==> a.timetag < next)
    && forall a, b {:trigger HasOtherTag(a, b.timetag)} ::
         a in all && b in all && a != b ==> HasOtherTag(a, b.timetag)
  }

  /** Matches and activations correspond one to one, except that an activation that is
      fired has been forgotten by its match. */
  ghost predicate MarkersOf(matches: set<PartialMatch>, all: set<Activation>, fired: set<Activation>)
    reads matches`marker
  {
    && (forall a :: a in all && a !in fired ==> a.basis in matches && a.basis.marker == a)
    && (forall m :: m in matches && m.marker != null ==> m.marker in all && m.marker.basis == m)
  }

  ghost predicate Disjoint<T>(s: seq<T>, t: seq<T>) {
    forall x :: x in s ==> x !in t
  }

  ghost predicate AllDisjoint<T>(lists: seq<seq<T>>, owned: set<T>) {
    && (forall i, j {:trigger Disjoint(lists[i], lists[j])} ::
          0 <= i < |lists| && 0 <= j < |lists| && i != j ==> Disjoint(lists[i], lists[j]))
    && forall j :: 0 <= j < |lists| ==> Members(lists[j]) <= owned
  }

  ghost predicate OnSome<T>(lists: seq<seq<T>>, x: T) {
    exists j :: 0 <= j < |lists| && x in lists[j]
  }

  /** Every activation is on exactly one agenda, or fired and on none. */
  ghost predicate Partition(lists: seq<seq<Activation>>, all: set<Activation>, fired: set<Activation>) {
    && AllDisjoint(lists, all) && fired <= all
    && forall a :: a in all ==> (a in fired <==> !OnSome(lists, a))
  }

  lemma DisjointUpdate<T>(lists: seq<seq<T>>, owned: set<T>, i: nat, s: seq<T>, owned': set<T>)
    requires AllDisjoint(lists, owned) && i < |lists| && Members(s) <= owned' && owned <= owned'
    requires forall x :: x in s ==> x in lists[i] || x !in owned
    ensures AllDisjoint(lists[i := s], owned')
  {
    var after := lists[i := s];
    forall k, l | 0 <= k < |after| && 0 <= l < |after| && k != l ensures Disjoint(after[k], after[l]) {
      assert Disjoint(lists[k], lists[l]);
      forall x | x in after[k] ensures x !in after[l] {
        assert k != i ==> x in Members(lists[k]);
        assert l != i && x in lists[l] ==> x in Members(lists[l]);
      }
    }
  }

  class Environment {
    const data: AgendaData
    const modules: seq<ModuleAgenda>
    ghost var lists: seq<seq<Activation>>      // the activations on the modules' agendas
    ghost var groups: seq<seq<SalienceGroup>>
    ghost var all: set<Activation>             // every activation that was not returned
    ghost var fired: set<Activation>           // those of them that are on no agenda
    ghost var owned: set<SalienceGroup>

    ghost predicate Mirrors()
      reads this, modules`acts, modules`groups
    {
      && |lists| == |groups| == |modules|
      && forall j :: 0 <= j < |modules| ==>
           modules[j].data == data && modules[j].acts == lists[j] && modules[j].groups == groups[j]
    }

    ghost predicate Separate()
      reads this, modules`acts, modules`groups
    {
      && Mirrors() && Partition(lists, all, fired) && AllDisjoint(groups, owned)
      && forall i, j :: 0 <= i < j < |modules| ==> modules[i] != modules[j]
    }

    ghost predicate Books()
      reads this, data`numberOfActivations, data`currentTimetag, data`matches, data.matches`marker
    {
      BooksFor(all, fired)
    }

    ghost predicate BooksFor(all: set<Activation>, fired: set<Activation>)
      reads data`numberOfActivations, data`currentTimetag, data`matches, data.matches`marker
    {
      && data.numberOfActivations == |all|
      && TagsOf(all, data.currentTimetag)
      && MarkersOf(data.matches, all, fired)
    }

    /** The agendas from module `n` on are lists in order, whose groups may be stale, and
        those before it are also placed and indexed. */
    ghost predicate Placed(n: nat)
      requires Separate()
      reads this, data`strategy, modules, all`prev, all`next, all`salience, owned
    {
      forall j :: 0 <= j < |modules| ==> PlacedAt(j, n)
    }

    ghost predicate PlacedAt(j: nat, n: nat)
      requires Separate() && j < |modules|
      reads this, data`strategy, modules, all`prev, all`next, all`salience, owned
    {
      Contained(j);
      if j < n then modules[j].Valid() else modules[j].ListValid()
    }

    lemma Contained(j: nat)
      requires Separate() && j < |modules|
      ensures forall a :: a in modules[j].acts ==> a in all && a !in fired
      ensures forall g :: g in modules[j].groups ==> g in owned
    {
      forall a | a in modules[j].acts ensures a in all && a !in fired {
        assert a in Members(lists[j]);
      }
      forall g | g in modules[j].groups ensures g in owned {
        assert g in Members(groups[j]);
      }
    }

    ghost predicate Whole()
      reads this, data, data.matches`marker, modules, all`prev, all`next, all`salience, owned
    {
      Separate() && Books() && Placed(|modules|)
    }

    constructor (strategy: Strategy, count: nat)
      ensures Whole() && |modules| == count && all == {} && data.strategy == strategy
    {
      var d := new AgendaData(strategy);
      var ms := MakeModules(d, count);
      data, modules := d, ms;
      lists, groups := seq(count, _ => []), seq(count, _ => []);
      all, fired, owned := {}, {}, {};
      new;
      AllEmpty();
    }

    static method MakeModules(data: AgendaData, count: nat) returns (ms: seq<ModuleAgenda>)
      ensures |ms| == count && forall j :: 0 <= j < count ==> fresh(ms[j]) && Empty(ms[j], data)
      ensures forall i, j :: 0 <= i < j < count ==> ms[i] != ms[j]
    {
      hide ModuleAgenda.Valid;
      ms := [];
      while |ms| < count
        invariant |ms| <= count && forall j :: 0 <= j < |ms| ==> fresh(ms[j]) && Empty(ms[j], data)
        invariant forall i, j :: 0 <= i < j < |ms| ==> ms[i] != ms[j]
      {
        var m := new ModuleAgenda(data);
        ms := ms + [m];
      }
    }

    static ghost predicate Empty(m: ModuleAgenda, data: AgendaData)
      reads m, data`strategy
    {
      m.data == data && m.acts == [] && m.groups == [] && m.Valid()
    }

    lemma AllEmpty()
      requires forall j :: 0 <= j < |modules| ==> Empty(modules[j], data)
      requires forall i, j :: 0 <= i < j < |modules| ==> modules[i] != modules[j]
      requires |lists| == |groups| == |modules|
      requires forall j :: 0 <= j < |modules| ==> lists[j] == [] && groups[j] == []
      requires all == fired == {} && data.numberOfActivations == 0 && data.matches == {}
      ensures Whole()
    {
    }

    // ----- one module within the environment -----

    /** What the environment's books say for one module. */
    lemma ModuleBooks(i: nat, others: set<Activation>)
      requires Separate() && Books() && i < |modules| && modules[i].ListValid()
      requires others == all - Members(modules[i].acts)
      ensures MarkersFor(data.matches, modules[i].acts, others)
      ensures TagsFor(modules[i].keys, others, data.currentTimetag)
      ensures data.numberOfActivations == |modules[i].acts| + |others|
    {
      var m := modules[i];
      Contained(i);
      m.ListDistinct();
      DistinctMembers(m.acts);
      assert all == Members(m.acts) + others;
      forall k | 0 <= k < |m.keys| ensures m.keys[k].timetag == m.acts[k].timetag && m.acts[k] in all {
        assert m.acts[k] in Members(m.acts);
      }
    }

    /** Looks at one module: everything that is not on its agenda is elsewhere. */
    method Focus(m: ModuleAgenda, ghost i: nat)
      requires Separate() && Books() && i < |modules| && modules[i] == m && m.ListValid()
      modifies m`others
      ensures m.others == all - Members(m.acts) && m.MarkersValid() && m.TagsValid()
      ensures data.numberOfActivations == |m.acts| + |m.others|
      ensures m.Valid() ==> m.Consistent()
    {
      hide Books;
      Contained(i);
      ModuleBooks(i, all - Members(m.acts));
      m.others := all - Members(m.acts);
    }

    /** What a module still says of itself, and how its agenda has changed, restores the
        environment's books. */
    lemma BooksOf(m: ModuleAgenda, all: set<Activation>, fired: set<Activation>)
      requires m.data == data && m.Consistent() && all == Members(m.acts) + m.others
      requires forall a :: a in all && a !in fired ==> a.basis in data.matches && a.basis.marker == a
      ensures BooksFor(all, fired)
    {
      m.ListDistinct();
      DistinctMembers(m.acts);
      assert Members(m.acts) !! m.others by {
        forall a | a in Members(m.acts) ensures a !in m.others { ListedNotElsewhere(m, a); }
      }
      assert |all| == |m.acts| + |m.others|;
      forall a, b | a in all && b in all && a != b ensures HasOtherTag(a, b.timetag) {
        TagsInModule(m, a, b);
      }
      forall a | a in all ensures a.timetag < data.currentTimetag { TagInModule(m, a); }
    }

    lemma TagInModule(m: ModuleAgenda, a: Activation)
      requires m.ListValid() && m.TagsValid() && a in Members(m.acts) + m.others
      ensures a.timetag < m.data.currentTimetag
    {
      if a in m.acts {
        var k :| 0 <= k < |m.acts| && m.acts[k] == a;
        assert m.keys[k] == a.Key();
      }
    }

    lemma ListedNotElsewhere(m: ModuleAgenda, a: Activation)
      requires m.ListValid() && m.TagsValid() && a in m.acts
      ensures a !in m.others
    {
      var k :| 0 <= k < |m.acts| && m.acts[k] == a;
      assert m.keys[k] == a.Key();
      assert a in m.others ==> HasOtherTag(a, m.keys[k].timetag);
    }

    lemma TagsInModule(m: ModuleAgenda, a: Activation, b: Activation)
      requires m.ListValid() && m.TagsValid() && a in Members(m.acts) + m.others && b in Members(m.acts) + m.others
      requires a != b
      ensures a.timetag != b.timetag
    {
      if a in m.acts {
        var k :| 0 <= k < |m.acts| && m.acts[k] == a;
        assert m.keys[k] == a.Key();
        if b in m.acts {
          var l :| 0 <= l < |m.acts| && m.acts[l] == b;
          assert m.keys[l] == b.Key();
          assert if k < l then TagsDiffer(m.keys[k], m.keys[l]) else TagsDiffer(m.keys[l], m.keys[k]);
        } else {
          assert HasOtherTag(b, m.keys[k].timetag);
        }
      } else if b in m.acts {
        var l :| 0 <= l < |m.acts| && m.acts[l] == b;
        assert m.keys[l] == b.Key();
        assert HasOtherTag(a, m.keys[l].timetag);
      } else {
        assert HasOtherTag(a, b.timetag);
      }
    }

    // ----- what the engine does with the agendas -----

    lemma EachPlaced(n: nat)
      requires Separate() && Placed(n)
      ensures forall j :: 0 <= j < |modules| ==> if j < n then modules[j].Valid() else modules[j].ListValid()
      ensures forall j :: 0 <= j < |modules| ==> modules[j].ListValid()
    {
      forall j | 0 <= j < |modules|
        ensures modules[j].ListValid() && if j < n then modules[j].Valid() else modules[j].ListValid()
      {
        assert PlacedAt(j, n);
      }
    }

    lemma AllPlaced(n: nat)
      requires Separate()
      requires forall j :: 0 <= j < |modules| ==> if j < n then modules[j].Valid() else modules[j].ListValid()
      ensures Placed(n)
    {
    }

    lemma EachIsMarker()
      requires Books()
      ensures forall a :: a in all && a !in fired ==> a.basis in data.matches && a.basis.marker == a
    {
    }

    /** Notes what module `i` has now; the other modules are as noted. */
    method Note(m: ModuleAgenda, ghost i: nat, ghost all': set<Activation>, ghost fired': set<Activation>)
      requires i < |modules| && modules[i] == m && |lists| == |groups| == |modules| && m.data == data
      requires forall j :: 0 <= j < |modules| && j != i ==>
        modules[j].data == data && modules[j].acts == lists[j] && modules[j].groups == groups[j]
      requires forall i, j :: 0 <= i < j < |modules| ==> modules[i] != modules[j]
      requires AllDisjoint(groups, owned) && forall g :: g in m.groups ==> g in groups[i] || g !in owned
      requires Partition(lists[i := m.acts], all', fired')
      modifies `lists, `groups, `all, `fired, `owned
      ensures Separate() && all == all' && fired == fired'
      ensures lists == old(lists)[i := m.acts] && groups == old(groups)[i := m.groups]
      ensures owned == old(owned) + Members(m.groups)
    {
      hide Partition, AllDisjoint;
      DisjointUpdate(groups, owned, i, m.groups, owned + Members(m.groups));
      lists, groups := lists[i := m.acts], groups[i := m.groups];
      all, fired, owned := all', fired', owned + Members(m.groups);
    }

    /** No other module owns anything of module `i`. */
    lemma OthersApart(i: nat)
      requires Separate() && i < |modules|
      ensures forall j :: 0 <= j < |modules| && j != i ==> modules[j] != modules[i]
      ensures forall j, a :: 0 <= j < |modules| && j != i && a in modules[j].acts ==> a !in Members(modules[i].acts)
      ensures forall j, g :: 0 <= j < |modules| && j != i && g in modules[j].groups ==> g !in Members(modules[i].groups)
    {
      forall j | 0 <= j < |modules| && j != i
        ensures modules[j] != modules[i] && Disjoint(modules[j].acts, modules[i].acts)
        ensures Disjoint(modules[j].groups, modules[i].groups)
      {
        assert Disjoint(lists[j], lists[i]) && Disjoint(groups[j], groups[i]);
      }
    }

    /** After module `i` was dealt with: its books become the environment's.  The modules
        from `n` on still wait to be placed. */
    method Close(m: ModuleAgenda, ghost i: nat, ghost n: nat,
                 ghost all': set<Activation>, ghost fired': set<Activation>)
      requires i < |modules| && i < n && modules[i] == m && |lists| == |groups| == |modules| && m.data == data
      requires forall j :: 0 <= j < |modules| && j != i ==>
        && modules[j].data == data && modules[j].acts == lists[j] && modules[j].groups == groups[j]
        && if j < n then modules[j].Valid() else modules[j].ListValid()
      requires forall i, j :: 0 <= i < j < |modules| ==> modules[i] != modules[j]
      requires AllDisjoint(groups, owned) && forall g :: g in m.groups ==> g in groups[i] || g !in owned
      requires Partition(lists[i := m.acts], all', fired')
      requires m.Consistent() && all' == Members(m.acts) + m.others
      requires forall a :: a in all' && a !in fired' ==> a.basis in data.matches && a.basis.marker == a
      modifies `lists, `groups, `all, `fired, `owned
      ensures Separate() && Books() && Placed(n)
      ensures all == all' && fired == fired' && lists == old(lists)[i := m.acts]
    {
      hide ModuleAgenda.Valid, ModuleAgenda.Consistent, ModuleAgenda.ListValid;
      hide BooksFor, Partition, AllDisjoint, Placed;
      ConsistentIsValid(m);
      BooksOf(m, all', fired');
      Note(m, i, all', fired');
      AllPlaced(n);
    }

    // Adding an activation.

    method AddIn(m: ModuleAgenda, ghost i: nat, rule: Rule, binds: PartialMatch, randomID: int,
                 whenDefined: bool, evaluated: Evaluated) returns (a: Activation, ghost p: nat)
      requires Separate() && Books() && i < |modules| && modules[i] == m && binds.marker == null
      requires m.Valid() && m.ListValid()
      modifies m, data, Members(m.acts)`prev, Members(m.acts)`next, Members(m.groups), binds`marker, rule`salience
      ensures m.Consistent() && m.others == all - old(Members(m.acts)) && data.strategy == old(data.strategy)
      ensures fresh(a) && a.basis == binds && binds.marker == a && a.rule == rule
      ensures Members(m.acts) == old(Members(m.acts)) + {a}
      ensures p <= |old(m.acts)| && m.acts == Insert(old(m.acts), p, a)
      ensures a.timetag == old(data.currentTimetag) && a.randomID == randomID && a.salience == rule.salience
      ensures a.salience == Evaluation(old(rule.salience), !whenDefined && rule.hasDynamicSalience, evaluated)
      ensures fresh(Members(m.groups) - old(Members(m.groups)))
      ensures data.matches == old(data.matches) + {binds}
    {
      hide ModuleAgenda.Valid, ModuleAgenda.MarkersValid, ModuleAgenda.TagsValid, ModuleAgenda.Consistent;
      hide ModuleAgenda.ListValid, Books, Partition, AllDisjoint;
      Focus(m, i);
      ghost var before := m.acts;
      a, p := m.AddActivation(rule, binds, randomID, whenDefined, evaluated);
      InsertMembers(before, p, a);
      m.MarkerOf(p);
    }

    /** Adds to one module; the others are left as they are. */
    method AddApart(m: ModuleAgenda, ghost i: nat, rule: Rule, binds: PartialMatch, randomID: int,
                    whenDefined: bool, evaluated: Evaluated) returns (a: Activation, ghost p: nat)
      requires Separate() && Books() && i < |modules| && modules[i] == m && binds.marker == null
      requires forall j :: 0 <= j < |modules| ==> modules[j].Valid() && modules[j].ListValid()
      modifies m, data, Members(m.acts)`prev, Members(m.acts)`next, Members(m.groups), binds`marker, rule`salience
      ensures m.Consistent() && m.others == all - old(Members(m.acts)) && data.strategy == old(data.strategy)
      ensures fresh(a) && a.basis == binds && binds.marker == a && a.rule == rule
      ensures Members(m.acts) == old(Members(m.acts)) + {a}
      ensures p <= |old(m.acts)| && m.acts == Insert(old(m.acts), p, a)
      ensures a.timetag == old(data.currentTimetag) && a.randomID == randomID && a.salience == rule.salience
      ensures a.salience == Evaluation(old(rule.salience), !whenDefined && rule.hasDynamicSalience, evaluated)
      ensures fresh(Members(m.groups) - old(Members(m.groups))) && binds in data.matches
      ensures forall j :: 0 <= j < |modules| && j != i ==>
        modules[j].Valid() && modules[j].acts == lists[j] && modules[j].groups == groups[j]
      ensures forall b :: b in all && b !in fired ==> b.basis in data.matches && b.basis.marker == b
    {
      hide ModuleAgenda.Valid, ModuleAgenda.Consistent, ModuleAgenda.ListValid;
      hide Books, Partition, AllDisjoint;
      OthersApart(i);
      EachIsMarker();
      a, p := AddIn(m, i, rule, binds, randomID, whenDefined, evaluated);
    }

    /** Adds an activation to the agenda of its rule's module. */
    method AddActivation(m: ModuleAgenda, ghost i: nat, rule: Rule, binds: PartialMatch, randomID: int,
                         whenDefined: bool, evaluated: Evaluated) returns (a: Activation, ghost p: nat)
      requires Whole() && i < |modules| && modules[i] == m && binds.marker == null
      modifies m, data, this, Members(m.acts)`prev, Members(m.acts)`next, Members(m.groups)
      modifies binds`marker, rule`salience
      ensures Whole() && fresh(a) && a.basis == binds && binds.marker == a && a.rule == rule
      ensures all == old(all) + {a} && fired == old(fired)
      ensures p <= |old(m.acts)| && lists == old(lists)[i := Insert(old(m.acts), p, a)]
      ensures a.timetag == old(data.currentTimetag) && a.randomID == randomID && a.salience == rule.salience
      ensures a.salience == Evaluation(old(rule.salience), !whenDefined && rule.hasDynamicSalience, evaluated)
      ensures data.strategy == old(data.strategy)
    {
      hide ModuleAgenda.Valid, ModuleAgenda.Consistent, ModuleAgenda.ListValid;
      hide BooksFor, Partition, AllDisjoint, Placed;
      EachPlaced(|modules|);
      Contained(i);
      a, p := AddApart(m, i, rule, binds, randomID, whenDefined, evaluated);
      PartitionAdd(lists, all, fired, i, m.acts, a);
      Close(m, i, |modules|, all + {a}, fired);
    }

    // Firing an activation, and removing one.

    method FireIn(m: ModuleAgenda, ghost i: nat, a: Activation, ghost p: nat)
      requires Separate() && Books() && i < |modules| && modules[i] == m && p < |m.acts| && m.acts[p] == a
      requires m.Valid() && m.ListValid()
      modifies m, data`agendaChanged, data`numberOfActivations
      modifies Members(m.acts)`prev, Members(m.acts)`next, Members(m.groups), a.basis`marker
      ensures m.Consistent() && m.others == all - old(Members(m.acts)) + {a} && a.basis.marker == null
      ensures Members(m.acts) == old(Members(m.acts)) - {a} && Members(m.groups) <= old(Members(m.groups))
      ensures m.acts == Remove(old(m.acts), p)
    {
      hide ModuleAgenda.Valid, ModuleAgenda.MarkersValid, ModuleAgenda.TagsValid, ModuleAgenda.Consistent;
      hide ModuleAgenda.ListValid, Books, Partition, AllDisjoint;
      Focus(m, i);
      m.ListDistinct();
      RemoveOne(m.acts, p);
      ghost var before := m.groups;
      ghost var k := m.BeginFiring(a, p);
      if m.groups != before { RemoveMembers(before, k); }
    }

    method FireApart(m: ModuleAgenda, ghost i: nat, a: Activation, ghost p: nat)
      requires Separate() && Books() && i < |modules| && modules[i] == m && p < |m.acts| && m.acts[p] == a
      requires forall j :: 0 <= j < |modules| ==> modules[j].Valid() && modules[j].ListValid()
      modifies m, data`agendaChanged, data`numberOfActivations
      modifies Members(m.acts)`prev, Members(m.acts)`next, Members(m.groups), a.basis`marker
      ensures m.Consistent() && m.others == all - old(Members(m.acts)) + {a} && a.basis.marker == null
      ensures Members(m.acts) == old(Members(m.acts)) - {a} && Members(m.groups) <= old(Members(m.groups))
      ensures m.acts == Remove(old(m.acts), p)
      ensures forall j :: 0 <= j < |modules| && j != i ==>
        modules[j].Valid() && modules[j].acts == lists[j] && modules[j].groups == groups[j]
      ensures forall b :: b in all && b !in fired && b != a ==> b.basis in data.matches && b.basis.marker == b
    {
      hide ModuleAgenda.Valid, ModuleAgenda.Consistent, ModuleAgenda.ListValid;
      hide BooksFor, Partition, AllDisjoint;
      OthersApart(i);
      EachIsMarker();
      Contained(i);
      FireIn(m, i, a, p);
    }

    /** Takes an activation off its agenda to fire it. */
    method BeginFiring(m: ModuleAgenda, ghost i: nat, a: Activation, ghost p: nat)
      requires Whole() && i < |modules| && modules[i] == m && p < |m.acts| && m.acts[p] == a
      modifies m, this, data`agendaChanged, data`numberOfActivations
      modifies Members(m.acts)`prev, Members(m.acts)`next, Members(m.groups), a.basis`marker
      ensures Whole() && all == old(all) && fired == old(fired) + {a} && a.basis.marker == null
      ensures lists == old(lists)[i := Remove(old(m.acts), p)]
    {
      hide ModuleAgenda.Valid, ModuleAgenda.Consistent, ModuleAgenda.ListValid;
      hide BooksFor, Partition, AllDisjoint, Placed;
      EachPlaced(|modules|);
      Contained(i);
      FireApart(m, i, a, p);
      PartitionDrop(lists, all, fired, i, m.acts, a);
      Close(m, i, |modules|, all, fired + {a});
    }

    method RemoveIn(m: ModuleAgenda, ghost i: nat, a: Activation, ghost p: nat)
      requires Separate() && Books() && i < |modules| && modules[i] == m && p < |m.acts| && m.acts[p] == a
      requires m.Valid() && m.ListValid()
      modifies m, data`agendaChanged, data`numberOfActivations
      modifies Members(m.acts)`prev, Members(m.acts)`next, Members(m.groups), a.basis`marker
      ensures m.Consistent() && m.others == all - old(Members(m.acts)) && a.basis.marker == null
      ensures Members(m.acts) == old(Members(m.acts)) - {a} && Members(m.groups) <= old(Members(m.groups))
      ensures m.acts == Remove(old(m.acts), p)
    {
      hide ModuleAgenda.Valid, ModuleAgenda.MarkersValid, ModuleAgenda.TagsValid, ModuleAgenda.Consistent;
      hide ModuleAgenda.ListValid, Books, Partition, AllDisjoint;
      Focus(m, i);
      m.ListDistinct();
      RemoveOne(m.acts, p);
      ghost var before := m.groups;
      ghost var k := m.RemoveActivation(a, p);
      if m.groups != before { RemoveMembers(before, k); }
    }

    method RemoveApart(m: ModuleAgenda, ghost i: nat, a: Activation, ghost p: nat)
      requires Separate() && Books() && i < |modules| && modules[i] == m && p < |m.acts| && m.acts[p] == a
      requires forall j :: 0 <= j < |modules| ==> modules[j].Valid() && modules[j].ListValid()
      modifies m, data`agendaChanged, data`numberOfActivations
      modifies Members(m.acts)`prev, Members(m.acts)`next, Members(m.groups), a.basis`marker
      ensures m.Consistent() && m.others == all - old(Members(m.acts)) && a.basis.marker == null
      ensures Members(m.acts) == old(Members(m.acts)) - {a} && Members(m.groups) <= old(Members(m.groups))
      ensures m.acts == Remove(old(m.acts), p)
      ensures forall j :: 0 <= j < |modules| && j != i ==>
        modules[j].Valid() && modules[j].acts == lists[j] && modules[j].groups == groups[j]
      ensures forall b :: b in all && b !in fired && b != a ==> b.basis in data.matches && b.basis.marker == b
    {
      hide ModuleAgenda.Valid, ModuleAgenda.Consistent, ModuleAgenda.ListValid;
      hide BooksFor, Partition, AllDisjoint;
      OthersApart(i);
      EachIsMarker();
      Contained(i);
      RemoveIn(m, i, a, p);
    }

    /** Removes an activation and returns it. */
    method RemoveActivation(m: ModuleAgenda, ghost i: nat, a: Activation, ghost p: nat)
      requires Whole() && i < |modules| && modules[i] == m && p < |m.acts| && m.acts[p] == a
      modifies m, this, data`agendaChanged, data`numberOfActivations
      modifies Members(m.acts)`prev, Members(m.acts)`next, Members(m.groups), a.basis`marker
      ensures Whole() && all == old(all) - {a} && fired == old(fired) && a.basis.marker == null
      ensures lists == old(lists)[i := Remove(old(m.acts), p)]
    {
      hide ModuleAgenda.Valid, ModuleAgenda.Consistent, ModuleAgenda.ListValid;
      hide BooksFor, Partition, AllDisjoint, Placed;
      EachPlaced(|modules|);
      Contained(i);
      RemoveApart(m, i, a, p);
      PartitionReturn(lists, all, fired, i, m.acts, a);
      Close(m, i, |modules|, all - {a}, fired);
    }

    /** Returns an activation that was fired: removing it with both update flags clear. */
    method ReturnActivation(a: Activation)
      requires Whole() && a in fired && a.basis.marker != a
      modifies data`numberOfActivations, `all, `fired
      ensures Whole() && all == old(all) - {a} && fired == old(fired) - {a}
    {
      hide ModuleAgenda.Valid, ModuleAgenda.ListValid, Placed;
      EachPlaced(|modules|);
      data.numberOfActivations := data.numberOfActivations - 1;
      all, fired := all - {a}, fired - {a};
      assert AllDisjoint(lists, all) by { DisjointLess(lists, all + {a}, a); }
      AllPlaced(|modules|);
    }

    // Removing many activations, and refreshing a rule.

    /** The activations that are listed are those that their matches name. */
    lemma ListedAreNamed(m: ModuleAgenda)
      requires m.Consistent()
      ensures forall a :: a in m.acts ==> a.basis in m.data.matches && a.basis.marker == a
    {
      forall a | a in m.acts ensures a.basis in m.data.matches && a.basis.marker == a {
        var p :| 0 <= p < |m.acts| && m.acts[p] == a;
        m.MarkerOf(p);
      }
    }

    method ClearIn(m: ModuleAgenda, ghost i: nat, disjuncts: seq<Rule>)
      requires Separate() && Books() && i < |modules| && modules[i] == m && m.Valid() && m.ListValid()
      modifies m, data`agendaChanged, data`numberOfActivations
      modifies Members(m.acts)`prev, Members(m.acts)`next, Members(m.groups), data.matches`marker
      ensures m.Consistent() && m.others == all - old(Members(m.acts)) && data.matches == old(data.matches)
      ensures m.acts == Without(old(m.acts), |old(m.acts)|, disjuncts)
      ensures Members(m.groups) <= old(Members(m.groups)) && Members(m.acts) <= old(Members(m.acts))
      ensures forall b :: b in m.others && old(b.basis.marker) == b ==> b.basis.marker == b
    {
      hide ModuleAgenda.Valid, ModuleAgenda.MarkersValid, ModuleAgenda.TagsValid, ModuleAgenda.Consistent;
      hide ModuleAgenda.ListValid, Books, Partition, AllDisjoint;
      Focus(m, i);
      m.ClearRuleFromAgenda(disjuncts);
    }

    method ClearApart(m: ModuleAgenda, ghost i: nat, disjuncts: seq<Rule>)
      requires Separate() && Books() && i < |modules| && modules[i] == m
      requires forall j :: 0 <= j < |modules| ==> modules[j].Valid() && modules[j].ListValid()
      modifies m, data`agendaChanged, data`numberOfActivations
      modifies Members(m.acts)`prev, Members(m.acts)`next, Members(m.groups), data.matches`marker
      ensures m.Consistent() && m.others == all - old(Members(m.acts))
      ensures m.acts == Without(old(m.acts), |old(m.acts)|, disjuncts)
      ensures Members(m.groups) <= old(Members(m.groups)) && Members(m.acts) <= old(Members(m.acts))
      ensures forall j :: 0 <= j < |modules| && j != i ==>
        modules[j].Valid() && modules[j].acts == lists[j] && modules[j].groups == groups[j]
      ensures forall b :: b in all && b !in fired && (b in old(m.acts) ==> b in m.acts) ==>
        b.basis in data.matches && b.basis.marker == b
    {
      hide ModuleAgenda.Valid, ModuleAgenda.Consistent, ModuleAgenda.ListValid;
      hide BooksFor, Partition, AllDisjoint;
      OthersApart(i);
      EachIsMarker();
      ghost var was := Members(m.acts);
      ClearIn(m, i, disjuncts);
      ListedAreNamed(m);
    }

    /** Clears the activations of a rule's disjuncts from the agenda of their module. */
    method ClearRuleFromAgenda(m: ModuleAgenda, ghost i: nat, disjuncts: seq<Rule>)
      requires Whole() && i < |modules| && modules[i] == m
      modifies m, this, data`agendaChanged, data`numberOfActivations
      modifies Members(m.acts)`prev, Members(m.acts)`next, Members(m.groups), data.matches`marker
      ensures Whole() && fired == old(fired)
      ensures lists == old(lists)[i := Without(old(m.acts), |old(m.acts)|, disjuncts)]
      ensures all == old(all) - (old(Members(m.acts)) - Members(lists[i]))
    {
      hide ModuleAgenda.Valid, ModuleAgenda.Consistent, ModuleAgenda.ListValid;
      hide BooksFor, Partition, AllDisjoint, Placed;
      EachPlaced(|modules|);
      Contained(i);
      ClearApart(m, i, disjuncts);
      PartitionLess(lists, all, fired, i, m.acts);
      Close(m, i, |modules|, all - (Members(lists[i]) - Members(m.acts)), fired);
    }

    method EmptyIn(m: ModuleAgenda, ghost i: nat) returns (ghost turns: nat)
      requires Separate() && Books() && i < |modules| && modules[i] == m && m.Valid() && m.ListValid()
      modifies m, data`agendaChanged, data`numberOfActivations
      modifies Members(m.acts)`prev, Members(m.acts)`next, Members(m.groups), data.matches`marker
      ensures m.Consistent() && m.others == all - old(Members(m.acts)) && data.matches == old(data.matches)
      ensures m.acts == [] && m.agenda == null && m.groupings == null && turns == 0
      ensures Members(m.groups) <= old(Members(m.groups))
      ensures forall b :: b in m.others && old(b.basis.marker) == b ==> b.basis.marker == b
    {
      hide ModuleAgenda.Valid, ModuleAgenda.MarkersValid, ModuleAgenda.TagsValid, ModuleAgenda.Consistent;
      hide ModuleAgenda.ListValid, Books, Partition, AllDisjoint;
      Focus(m, i);
      turns := m.RemoveAllActivations();
    }

    method EmptyApart(m: ModuleAgenda, ghost i: nat) returns (ghost turns: nat)
      requires Separate() && Books() && i < |modules| && modules[i] == m
      requires forall j :: 0 <= j < |modules| ==> modules[j].Valid() && modules[j].ListValid()
      modifies m, data`agendaChanged, data`numberOfActivations
      modifies Members(m.acts)`prev, Members(m.acts)`next, Members(m.groups), data.matches`marker
      ensures m.Consistent() && m.others == all - old(Members(m.acts))
      ensures m.acts == [] && m.agenda == null && m.groupings == null && turns == 0
      ensures Members(m.groups) <= old(Members(m.groups))
      ensures forall j :: 0 <= j < |modules| && j != i ==>
        modules[j].Valid() && modules[j].acts == lists[j] && modules[j].groups == groups[j]
      ensures forall b :: b in all && b !in fired && b !in old(m.acts) ==>
        b.basis in data.matches && b.basis.marker == b
    {
      hide ModuleAgenda.Valid, ModuleAgenda.Consistent, ModuleAgenda.ListValid;
      hide BooksFor, Partition, AllDisjoint;
      OthersApart(i);
      EachIsMarker();
      turns := EmptyIn(m, i);
    }

    /** Removes all activations of one module. */
    method RemoveAllActivations(m: ModuleAgenda, ghost i: nat) returns (ghost turns: nat)
      requires Whole() && i < |modules| && modules[i] == m
      modifies m, this, data`agendaChanged, data`numberOfActivations
      modifies Members(m.acts)`prev, Members(m.acts)`next, Members(m.groups), data.matches`marker
      ensures Whole() && fired == old(fired) && all == old(all) - old(Members(m.acts))
      ensures lists == old(lists)[i := []] && m.agenda == null && m.groupings == null && turns == 0
    {
      hide ModuleAgenda.Valid, ModuleAgenda.Consistent, ModuleAgenda.ListValid;
      hide BooksFor, Partition, AllDisjoint, Placed;
      EachPlaced(|modules|);
      Contained(i);
      turns := EmptyApart(m, i);
      PartitionLess(lists, all, fired, i, m.acts);
      Close(m, i, |modules|, all - (Members(lists[i]) - Members(m.acts)), fired);
    }

    method RefreshRuleIn(m: ModuleAgenda, ghost i: nat, ds: seq<Disjunct>, random: nat -> int, whenDefined: bool,
                         evaluated: nat -> Evaluated)
      requires Separate() && Books() && i < |modules| && modules[i] == m && m.Valid() && m.ListValid()
      modifies m, data, Members(m.acts)`prev, Members(m.acts)`next, Members(m.groups)
      modifies MatchesOf(ds)`marker, DisjunctRules(ds)`salience
      ensures m.Consistent() && m.others == all - old(Members(m.acts)) && data.strategy == old(data.strategy)
      ensures old(data.matches) <= data.matches && AllActivated(ds, |ds|)
      ensures forall x :: x in MatchesOf(ds) ==>
        x.marker == old(x.marker) || (old(x.marker) == null && x.activatesRule && fresh(x.marker))
      ensures fresh(Members(m.acts) - old(Members(m.acts))) && fresh(Members(m.groups) - old(Members(m.groups)))
      ensures old(Members(m.acts)) <= Members(m.acts)
      ensures forall a :: a in Members(m.acts) - old(Members(m.acts)) ==> IsFor(a, ds)
    {
      hide ModuleAgenda.Valid, ModuleAgenda.MarkersValid, ModuleAgenda.TagsValid, ModuleAgenda.Consistent;
      hide ModuleAgenda.ListValid, Books, Partition, AllDisjoint, AllActivated;
      Focus(m, i);
      m.EnvRefresh(ds, random, whenDefined, evaluated);
    }

    method RefreshRuleApart(m: ModuleAgenda, ghost i: nat, ds: seq<Disjunct>, random: nat -> int,
                            whenDefined: bool, evaluated: nat -> Evaluated)
      requires Separate() && Books() && i < |modules| && modules[i] == m
      requires forall j :: 0 <= j < |modules| ==> modules[j].Valid() && modules[j].ListValid()
      modifies m, data, Members(m.acts)`prev, Members(m.acts)`next, Members(m.groups)
      modifies MatchesOf(ds)`marker, DisjunctRules(ds)`salience
      ensures m.Consistent() && m.others == all - old(Members(m.acts)) && data.strategy == old(data.strategy)
      ensures AllActivated(ds, |ds|)
      ensures forall x :: x in MatchesOf(ds) ==>
        x.marker == old(x.marker) || (old(x.marker) == null && x.activatesRule && fresh(x.marker))
      ensures fresh(Members(m.acts) - old(Members(m.acts))) && fresh(Members(m.groups) - old(Members(m.groups)))
      ensures old(Members(m.acts)) <= Members(m.acts)
      ensures forall a :: a in Members(m.acts) - old(Members(m.acts)) ==> IsFor(a, ds)
      ensures forall j :: 0 <= j < |modules| && j != i ==>
        modules[j].Valid() && modules[j].acts == lists[j] && modules[j].groups == groups[j]
      ensures forall b :: b in all + Members(m.acts) && b !in fired ==>
        b.basis in data.matches && b.basis.marker == b
    {
      hide ModuleAgenda.Valid, ModuleAgenda.Consistent, ModuleAgenda.ListValid;
      hide BooksFor, Partition, AllDisjoint, AllActivated, IsFor;
      OthersApart(i);
      EachIsMarker();
      RefreshRuleIn(m, i, ds, random, whenDefined, evaluated);
      ListedAreNamed(m);
    }

    /** Refreshes a rule in its module: each match of a disjunct that can activate it and has no activation
        gets a new one, for that disjunct's rule. */
    method EnvRefresh(m: ModuleAgenda, ghost i: nat, ds: seq<Disjunct>, random: nat -> int, whenDefined: bool,
                      evaluated: nat -> Evaluated)
      requires Whole() && i < |modules| && modules[i] == m
      modifies m, data, this, Members(m.acts)`prev, Members(m.acts)`next, Members(m.groups)
      modifies MatchesOf(ds)`marker, DisjunctRules(ds)`salience
      ensures Whole() && fired == old(fired) && AllActivated(ds, |ds|)
      ensures lists == old(lists)[i := m.acts] && all == old(all) + Members(m.acts)
      ensures forall x :: x in MatchesOf(ds) ==>
        x.marker == old(x.marker) || (old(x.marker) == null && x.activatesRule && fresh(x.marker))
      ensures old(Members(m.acts)) <= Members(m.acts)
      ensures forall a :: a in Members(m.acts) - old(Members(m.acts)) ==> fresh(a) && IsFor(a, ds)
    {
      hide ModuleAgenda.Valid, ModuleAgenda.Consistent, ModuleAgenda.ListValid;
      hide BooksFor, Partition, AllDisjoint, Placed, AllActivated, IsFor;
      EachPlaced(|modules|);
      Contained(i);
      RefreshRuleApart(m, i, ds, random, whenDefined, evaluated);
      PartitionMore(lists, all, fired, i, m.acts);
      Close(m, i, |modules|, all + Members(m.acts), fired);
    }

    /** The clear command starts the time tags over: this keeps the books exactly when no activation is
        left. */
    method AgendaClearFunction()
      requires Whole()
      modifies data`currentTimetag
      ensures data.currentTimetag == 0 && (Whole() <==> all == {})
    {
      hide ModuleAgenda.Valid, ModuleAgenda.ListValid, Placed;
      EachPlaced(|modules|);
      data.currentTimetag := 0;
      AllPlaced(|modules|);
    }

    // Placing every activation again.

    method ReorderIn(m: ModuleAgenda, ghost i: nat)
      requires Separate() && Books() && i < |modules| && modules[i] == m && m.ListValid()
      modifies m, data`agendaChanged, Members(m.acts)`prev, Members(m.acts)`next
      ensures m.Consistent() && m.others == all - Members(m.acts)
      ensures multiset(m.acts) == multiset(old(m.acts)) && multiset(m.keys) == multiset(old(m.keys))
      ensures fresh(Members(m.groups))
    {
      hide ModuleAgenda.Valid, ModuleAgenda.MarkersValid, ModuleAgenda.TagsValid, ModuleAgenda.Consistent;
      hide ModuleAgenda.ListValid, Books, Partition, AllDisjoint;
      Focus(m, i);
      ghost var before := m.acts;
      m.EnvReorderAgenda();
      SameMembers(before, m.acts);
    }

    method ReorderApart(m: ModuleAgenda, ghost i: nat)
      requires Separate() && Books() && i < |modules| && modules[i] == m
      requires forall j :: 0 <= j < |modules| ==> modules[j].ListValid() && (j < i ==> modules[j].Valid())
      modifies m, data`agendaChanged, Members(m.acts)`prev, Members(m.acts)`next
      ensures m.Consistent() && m.others == all - Members(m.acts)
      ensures multiset(m.acts) == multiset(old(m.acts)) && multiset(m.keys) == multiset(old(m.keys))
      ensures fresh(Members(m.groups)) && forall g :: g in m.groups ==> g !in owned
      ensures forall j :: 0 <= j < |modules| && j != i ==>
        && modules[j].acts == lists[j] && modules[j].groups == groups[j]
        && if j < i then modules[j].Valid() else modules[j].ListValid()
      ensures forall b :: b in all && b !in fired ==> b.basis in data.matches && b.basis.marker == b
    {
      hide ModuleAgenda.Valid, ModuleAgenda.Consistent, ModuleAgenda.ListValid;
      hide BooksFor, Partition, AllDisjoint;
      OthersApart(i);
      EachIsMarker();
      ghost var before := owned;
      ReorderIn(m, i);
      forall g | g in m.groups ensures g !in before { assert g in Members(m.groups); }
    }

    /** Reorders the agenda of one module. */
    method ReorderOne(m: ModuleAgenda, ghost i: nat)
      requires Separate() && Books() && Placed(i) && i < |modules| && modules[i] == m
      modifies m, this, data`agendaChanged, Members(m.acts)`prev, Members(m.acts)`next
      ensures Separate() && Books() && Placed(i + 1) && all == old(all) && fired == old(fired)
      ensures multiset(m.acts) == multiset(old(m.acts)) && multiset(m.keys) == multiset(old(m.keys))
      ensures lists == old(lists)[i := m.acts]
    {
      hide ModuleAgenda.Valid, ModuleAgenda.Consistent, ModuleAgenda.ListValid;
      hide BooksFor, Partition, AllDisjoint, Placed;
      EachPlaced(i);
      Contained(i);
      ReorderApart(m, i);
      SameMembers(lists[i], m.acts);
      PartitionSame(lists, all, fired, i, m.acts);
      Close(m, i, i + 1, all, fired);
    }

    /** Reorders the agendas of all modules. */
    method ReorderAll()
      requires Separate() && Books() && Placed(0)
      modifies modules, this, data`agendaChanged, all`prev, all`next
      ensures Whole() && all == old(all) && fired == old(fired)
      ensures Permuted(old(lists)) && forall j :: 0 <= j < |modules| ==>
        multiset(modules[j].keys) == multiset(old(modules[j].keys))
    {
      hide Books, Partition, AllDisjoint, Placed;
      for i := 0 to |modules|
        invariant Separate() && Books() && Placed(i) && all == old(all) && fired == old(fired)
        invariant Permuted(old(lists)) && forall j :: 0 <= j < |modules| ==>
          multiset(modules[j].keys) == multiset(old(modules[j].keys))
      {
        Contained(i);
        ReorderOne(modules[i], i);
      }
    }

    /** Each agenda lists the activations it listed before. */
    ghost predicate Permuted(before: seq<seq<Activation>>)
      reads `lists
    {
      |lists| == |before| && forall j :: 0 <= j < |lists| ==> multiset(lists[j]) == multiset(before[j])
    }

    /** Changing the strategy places every activation of every module again. */
    method SetStrategy(value: Strategy) returns (oldStrategy: Strategy)
      requires Whole()
      modifies modules, this, data`agendaChanged, data`strategy, all`prev, all`next
      ensures Whole() && data.strategy == value && oldStrategy == old(data.strategy)
      ensures all == old(all) && fired == old(fired)
      ensures Permuted(old(lists)) && forall j :: 0 <= j < |modules| ==>
        multiset(modules[j].keys) == multiset(old(modules[j].keys))
    {
      hide BooksFor, Partition, AllDisjoint, Placed;
      hide ModuleAgenda.ListValid, ModuleAgenda.Valid;
      EachPlaced(|modules|);
      oldStrategy := data.strategy;
      data.strategy := value;
      if oldStrategy != data.strategy {
        AllPlaced(0);
        ReorderAll();
      } else {
        AllPlaced(|modules|);
      }
    }

    lemma SameAgenda(j: nat, was: seq<Activation>, keys: seq<Key>)
      requires Whole() && j < |modules| && KeysMatch(was, keys) && Ordered(data.strategy, keys) && DistinctTags(keys)
      requires multiset(lists[j]) == multiset(was) && multiset(modules[j].keys) == multiset(keys)
      ensures lists[j] == was
    {
      var m := modules[j];
      assert PlacedAt(j, |modules|);
      OrderedUnique(data.strategy, m.keys, keys);
      SameMembers(m.acts, was);
      KeysFixOrder(m.acts, was, keys);
    }

    /** Each agenda is the only ordering of what it lists. */
    lemma InOrder()
      requires Whole()
      ensures Separate()
      ensures forall j :: 0 <= j < |modules| ==>
        && KeysMatch(lists[j], modules[j].keys) && DistinctTags(modules[j].keys)
        && Ordered(data.strategy, modules[j].keys)
    {
      forall j | 0 <= j < |modules|
        ensures KeysMatch(lists[j], modules[j].keys) && DistinctTags(modules[j].keys)
                && Ordered(data.strategy, modules[j].keys)
      {
        assert PlacedAt(j, |modules|);
      }
    }

    /** Trying another strategy and coming back restores every agenda exactly; `between` are the agendas
        while the other strategy was in force, ordered by it. */
    method TryStrategy(other: Strategy) returns (ghost between: seq<seq<Activation>>, ghost keys: seq<seq<Key>>)
      requires Whole()
      modifies modules, this, data`agendaChanged, data`strategy, all`prev, all`next
      ensures Whole() && data.strategy == old(data.strategy) && lists == old(lists)
      ensures |between| == |keys| == |modules| && Permuted(between)
      ensures forall j :: 0 <= j < |modules| ==> KeysMatch(between[j], keys[j]) && Ordered(other, keys[j])
    {
      hide BooksFor, Partition, AllDisjoint, Placed, Ordered, DistinctTags;
      InOrder();
      var mine := SetStrategy(other);
      InOrder();
      between, keys := lists, seq(|modules|, j requires 0 <= j < |modules| reads modules => modules[j].keys);
      var theirs := SetStrategy(mine);
      forall j | 0 <= j < |modules| ensures lists[j] == old(lists)[j] {
        assert KeysMatch(old(lists)[j], old(modules[j].keys));
        SameAgenda(j, old(lists)[j], old(modules[j].keys));
      }
    }

    // Evaluating every salience again.

    method RefreshIn(m: ModuleAgenda, ghost i: nat, evaluated: nat -> Evaluated, ghost before: map<Rule, int>)
      requires Separate() && Books() && i < |modules| && modules[i] == m && m.ListValid() && m.Valid()
      requires RulesHave(before, RulesOf(m.acts))
      modifies m, data`agendaChanged, Members(m.acts)`prev, Members(m.acts)`next, Members(m.acts)`salience
      modifies RulesOf(m.acts)`salience
      ensures m.Consistent() && m.others == all - Members(m.acts)
      ensures multiset(m.acts) == multiset(old(m.acts)) && fresh(Members(m.groups))
      ensures Recomputed(old(m.acts), |old(m.acts)|, evaluated, before)
    {
      hide ModuleAgenda.Valid, ModuleAgenda.MarkersValid, ModuleAgenda.TagsValid, ModuleAgenda.Consistent;
      hide ModuleAgenda.ListValid, Books, Partition, AllDisjoint, Recomputed;
      Focus(m, i);
      ghost var s := m.acts;
      m.EnvRefreshAgenda(evaluated, before);
      SameMembers(s, m.acts);
    }

    method RefreshApart(m: ModuleAgenda, ghost i: nat, evaluated: nat -> Evaluated, ghost before: map<Rule, int>)
      requires Separate() && Books() && i < |modules| && modules[i] == m
      requires forall j :: 0 <= j < |modules| ==> modules[j].ListValid() && modules[j].Valid()
      requires RulesHave(before, RulesOf(m.acts))
      modifies m, data`agendaChanged, Members(m.acts)`prev, Members(m.acts)`next, Members(m.acts)`salience
      modifies RulesOf(m.acts)`salience
      ensures m.Consistent() && m.others == all - Members(m.acts)
      ensures multiset(m.acts) == multiset(old(m.acts))
      ensures fresh(Members(m.groups)) && forall g :: g in m.groups ==> g !in owned
      ensures Recomputed(old(m.acts), |old(m.acts)|, evaluated, before)
      ensures forall j :: 0 <= j < |modules| && j != i ==>
        modules[j].Valid() && modules[j].acts == lists[j] && modules[j].groups == groups[j]
      ensures forall b :: b in all && b !in fired ==> b.basis in data.matches && b.basis.marker == b
    {
      hide ModuleAgenda.Valid, ModuleAgenda.Consistent, ModuleAgenda.ListValid;
      hide BooksFor, Partition, AllDisjoint, Recomputed;
      OthersApart(i);
      EachIsMarker();
      ghost var known := owned;
      RefreshIn(m, i, evaluated, before);
      forall g | g in m.groups ensures g !in known { assert g in Members(m.groups); }
    }

    /** Evaluates the saliences of one module's activations and places them again. */
    method RefreshOne(m: ModuleAgenda, ghost i: nat, evaluated: nat -> Evaluated, ghost before: map<Rule, int>)
      requires Whole() && i < |modules| && modules[i] == m && RulesHave(before, RulesOf(m.acts))
      modifies this
      modifies m, data`agendaChanged, Members(m.acts)`prev, Members(m.acts)`next, Members(m.acts)`salience
      modifies RulesOf(m.acts)`salience
      ensures Whole() && all == old(all) && fired == old(fired)
      ensures lists == old(lists)[i := m.acts] && multiset(m.acts) == multiset(old(m.acts))
      ensures Recomputed(old(m.acts), |old(m.acts)|, evaluated, before)
    {
      hide ModuleAgenda.Valid, ModuleAgenda.Consistent, ModuleAgenda.ListValid;
      hide BooksFor, Partition, AllDisjoint, Placed, Recomputed;
      EachPlaced(|modules|);
      Contained(i);
      RefreshApart(m, i, evaluated, before);
      SameMembers(lists[i], m.acts);
      PartitionSame(lists, all, fired, i, m.acts);
      Close(m, i, |modules|, all, fired);
    }

    /** The next module's agenda, once those before it were refreshed; `was` are the lists there were. */
    method RefreshNext(ghost was: seq<seq<Activation>>, i: nat, evaluated: nat -> nat -> Evaluated,
                       ghost before: map<Rule, int>)
      requires Whole() && i < |modules| && Permuted(was) && forall j :: i <= j < |was| ==> lists[j] == was[j]
      requires Known(was, before) && RefreshedTo(was, i, evaluated, before)
      modifies this, modules[i], data`agendaChanged
      modifies Members(modules[i].acts)`prev, Members(modules[i].acts)`next, Members(modules[i].acts)`salience
      modifies RulesOf(modules[i].acts)`salience
      ensures Whole() && all == old(all) && fired == old(fired)
      ensures Permuted(was) && forall j :: i < j < |was| ==> lists[j] == was[j]
      ensures RefreshedTo(was, i + 1, evaluated, before)
    {
      hide Books, Partition, Placed;
      ghost var now := map r | r in RulesOf(modules[i].acts) :: r.salience;
      assert forall j, p :: 0 <= j < i && 0 <= p < |was[j]| ==> was[j][p] !in Members(was[i]) by {
        EarlierApart(was, i);
      }
      RefreshOne(modules[i], i, evaluated(i), now);
      forall r | r in before ensures r.salience == SalienceThrough(was, i + 1, r, evaluated, before[r]) {
        if r !in RulesOf(was[i]) {
          SalienceKept(was[i], |was[i]|, r, evaluated(i), SalienceThrough(was, i, r, evaluated, before[r]));
        }
      }
      forall j | 0 <= j < i + 1 ensures ListRefreshed(was, j, evaluated, before) {
        if j < i { assert old(ListRefreshed(was, j, evaluated, before)); }
      }
    }

    lemma EarlierApart(was: seq<seq<Activation>>, i: nat)
      requires Separate() && Permuted(was) && i < |was| && lists[i] == was[i]
      ensures forall j, p :: 0 <= j < i && 0 <= p < |was[j]| ==> was[j][p] !in Members(was[i])
    {
      forall j, p | 0 <= j < i && 0 <= p < |was[j]| ensures was[j][p] !in Members(was[i]) {
        assert Disjoint(lists[j], lists[i]) && was[j][p] in multiset(was[j]) && was[j][p] in multiset(lists[j]);
      }
    }

    /** Refreshes the agendas of all modules, one after another: each activation has the salience that the
        evaluations up to it gave its rule, in its own module and in those before. */
    method RefreshAll(evaluated: nat -> nat -> Evaluated, ghost before: map<Rule, int>)
      requires Whole() && RulesHave(before, set a | a in all :: a.rule)
      modifies modules, this, data`agendaChanged, all`prev, all`next, all`salience
      modifies set a | a in all :: a.rule
      ensures Whole() && all == old(all) && fired == old(fired) && Permuted(old(lists))
      ensures Known(old(lists), before) && RefreshedTo(old(lists), |modules|, evaluated, before)
      ensures forall a :: a in fired ==> a.salience == old(a.salience)
    {
      hide Books, Partition, AllDisjoint, Placed;
      ghost var was := lists;
      AllKnown(before);
      for i := 0 to |modules|
        invariant Whole() && all == old(all) && fired == old(fired) && Permuted(was)
        invariant forall j :: i <= j < |was| ==> lists[j] == was[j]
        invariant RefreshedTo(was, i, evaluated, before)
        invariant forall a :: a in fired ==> a.salience == old(a.salience)
      {
        Contained(i);
        RefreshNext(was, i, evaluated, before);
      }
    }

    lemma AllKnown(before: map<Rule, int>)
      requires Separate() && before.Keys == (set a | a in all :: a.rule)
      ensures Known(lists, before)
    {
      forall j, p | 0 <= j < |lists| && 0 <= p < |lists[j]| ensures lists[j][p].rule in before {
        Contained(j);
      }
    }

    // ----- what the shared books mean -----

    /** The counter is the number of activations on all agendas and those being fired. */
    lemma NumberIsSum()
      requires Whole()
      ensures data.numberOfActivations == Total(lists) + |fired|
    {
      forall j | 0 <= j < |lists| ensures Distinct(lists[j]) {
        assert PlacedAt(j, |modules|);
        modules[j].ListDistinct();
      }
      TotalIsCount(lists, all);
      forall a | a in all && a !in fired ensures a in Union(lists) { InUnion(lists, a); }
      forall a | a in Union(lists) ensures a in all && a !in fired {
        InUnion(lists, a);
        var j :| 0 <= j < |lists| && a in lists[j];
        assert a in Members(lists[j]);
      }
      assert all == Union(lists) + fired;
    }

    /** Two different activations, on whatever agendas, have different time tags. */
    lemma TagsDifferEverywhere(i: nat, p: nat, j: nat, q: nat)
      requires Whole() && i < |lists| && p < |lists[i]| && j < |lists| && q < |lists[j]| && (i != j || p != q)
      ensures lists[i][p].timetag != lists[j][q].timetag
    {
      var a, b := lists[i][p], lists[j][q];
      assert a in Members(lists[i]) && b in Members(lists[j]);
      assert PlacedAt(i, |modules|);
      modules[i].ListDistinct();
      assert i != j ==> Disjoint(lists[i], lists[j]);
      assert HasOtherTag(a, b.timetag);
    }
  }

  ghost function Total<T>(lists: seq<seq<T>>): nat {
    if lists == [] then 0 else |lists[0]| + Total(lists[1..])
  }

  ghost function Union<T>(lists: seq<seq<T>>): set<T> {
    if lists == [] then {} else Members(lists[0]) + Union(lists[1..])
  }

  lemma {:induction false} InUnion<T>(lists: seq<seq<T>>, x: T)
    ensures x in Union(lists) <==> OnSome(lists, x)
  {
    if lists != [] {
      InUnion(lists[1..], x);
      if x in lists[0] { assert OnSome(lists, x); }
      if j :| 0 <= j < |lists[1..]| && x in lists[1..][j] { assert x in lists[j + 1]; }
      if j :| 0 <= j < |lists| && x in lists[j] { assert j > 0 ==> x in lists[1..][j - 1]; }
    }
  }

  lemma {:induction false} TotalIsCount<T>(lists: seq<seq<T>>, owned: set<T>)
    requires AllDisjoint(lists, owned) && forall j :: 0 <= j < |lists| ==> Distinct(lists[j])
    ensures |Union(lists)| == Total(lists)
  {
    if lists != [] {
      var rest := lists[1..];
      forall k, l | 0 <= k < |rest| && 0 <= l < |rest| && k != l ensures Disjoint(rest[k], rest[l]) {
        assert Disjoint(lists[k + 1], lists[l + 1]);
      }
      TotalIsCount(rest, owned);
      DistinctMembers(lists[0]);
      forall x | x in lists[0] ensures x !in Union(rest) {
        InUnion(rest, x);
        forall j | 0 <= j < |rest| ensures x !in rest[j] { assert Disjoint(lists[0], lists[j + 1]); }
      }
    }
  }

  lemma PartitionSame(lists: seq<seq<Activation>>, all: set<Activation>, fired: set<Activation>,
                      i: nat, s: seq<Activation>)
    requires Partition(lists, all, fired) && i < |lists| && Members(s) == Members(lists[i])
    ensures Partition(lists[i := s], all, fired)
  {
    forall x ensures x in s <==> x in lists[i] { assert x in s <==> x in Members(s); }
    DisjointUpdate(lists, all, i, s, all);
    var after := lists[i := s];
    forall b ensures OnSome(after, b) <==> OnSome(lists, b) {
      if j :| 0 <= j < |lists| && b in lists[j] { assert b in after[j]; }
      if j :| 0 <= j < |after| && b in after[j] { assert b in lists[j]; }
    }
  }

  lemma DisjointLess(lists: seq<seq<Activation>>, owned: set<Activation>, a: Activation)
    requires AllDisjoint(lists, owned) && !OnSome(lists, a)
    ensures AllDisjoint(lists, owned - {a})
  {
    forall j | 0 <= j < |lists| ensures Members(lists[j]) <= owned - {a} {
      assert a !in lists[j];
    }
    forall k, l | 0 <= k < |lists| && 0 <= l < |lists| && k != l ensures Disjoint(lists[k], lists[l]) {
    }
  }

  /** An activation that leaves its agenda is on no other. */
  lemma OffAll(lists: seq<seq<Activation>>, owned: set<Activation>, i: nat, s: seq<Activation>, a: Activation)
    requires AllDisjoint(lists, owned) && i < |lists| && a in lists[i] && Members(s) == Members(lists[i]) - {a}
    ensures AllDisjoint(lists[i := s], owned) && !OnSome(lists[i := s], a)
    ensures forall b :: b != a ==> (OnSome(lists[i := s], b) <==> OnSome(lists, b))
  {
    var after := lists[i := s];
    forall x | x in s ensures x in lists[i] { assert x in Members(s); }
    DisjointUpdate(lists, owned, i, s, owned);
    forall j | 0 <= j < |after| ensures a !in after[j] {
      assert j != i ==> Disjoint(lists[j], lists[i]);
      assert a in s <==> a in Members(s);
    }
    forall b | b != a ensures OnSome(after, b) <==> OnSome(lists, b) {
      assert b in s <==> b in Members(s);
      if j :| 0 <= j < |lists| && b in lists[j] { assert b in after[j]; }
      if j :| 0 <= j < |after| && b in after[j] { assert b in lists[j]; }
    }
  }

  lemma PartitionDrop(lists: seq<seq<Activation>>, all: set<Activation>, fired: set<Activation>,
                      i: nat, s: seq<Activation>, a: Activation)
    requires Partition(lists, all, fired) && i < |lists| && a in lists[i] && a in all
    requires Members(s) == Members(lists[i]) - {a}
    ensures Partition(lists[i := s], all, fired + {a})
  {
    OffAll(lists, all, i, s, a);
  }

  lemma PartitionReturn(lists: seq<seq<Activation>>, all: set<Activation>, fired: set<Activation>,
                        i: nat, s: seq<Activation>, a: Activation)
    requires Partition(lists, all, fired) && i < |lists| && a in lists[i] && a in all
    requires Members(s) == Members(lists[i]) - {a}
    ensures Partition(lists[i := s], all - {a}, fired)
  {
    OffAll(lists, all, i, s, a);
    DisjointLess(lists[i := s], all, a);
  }

  lemma PartitionLess(lists: seq<seq<Activation>>, all: set<Activation>, fired: set<Activation>,
                      i: nat, s: seq<Activation>)
    requires Partition(lists, all, fired) && i < |lists| && Members(s) <= Members(lists[i])
    ensures Partition(lists[i := s], all - (Members(lists[i]) - Members(s)), fired)
  {
    var gone, after := Members(lists[i]) - Members(s), lists[i := s];
    forall x | x in s ensures x in lists[i] { assert x in Members(s); }
    DisjointUpdate(lists, all, i, s, all);
    forall j | 0 <= j < |after| ensures Members(after[j]) <= all - gone {
      assert j != i ==> Disjoint(lists[j], lists[i]);
    }
    assert AllDisjoint(after, all - gone) by {
      forall k, l | 0 <= k < |after| && 0 <= l < |after| && k != l ensures Disjoint(after[k], after[l]) { }
    }
    forall b | b in all - gone ensures b in fired <==> !OnSome(after, b) {
      if j :| 0 <= j < |lists| && b in lists[j] {
        assert j == i ==> b in Members(lists[i]) && b in Members(s);
        assert b in after[j];
      }
      if j :| 0 <= j < |after| && b in after[j] { assert b in lists[j]; }
    }
    forall b | b in fired ensures b in all - gone {
      assert b in lists[i] ==> OnSome(lists, b);
    }
  }

  lemma PartitionMore(lists: seq<seq<Activation>>, all: set<Activation>, fired: set<Activation>,
                      i: nat, s: seq<Activation>)
    requires Partition(lists, all, fired) && i < |lists| && Members(lists[i]) <= Members(s)
    requires (Members(s) - Members(lists[i])) !! all
    ensures Partition(lists[i := s], all + Members(s), fired)
  {
    var after := lists[i := s];
    forall x | x in s ensures x in lists[i] || x !in all {
      assert x in Members(s);
      assert x in lists[i] <==> x in Members(lists[i]);
    }
    DisjointUpdate(lists, all, i, s, all + Members(s));
    forall b | b in all + Members(s) ensures b in fired <==> !OnSome(after, b) {
      assert b in s <==> b in Members(s);
      if j :| 0 <= j < |lists| && b in lists[j] {
        assert b in Members(lists[j]);
        assert b in after[j];
      }
      if j :| 0 <= j < |after| && b in after[j] {
        assert b in all ==> b in lists[j];
      }
      assert b in Members(s) ==> b in after[i];
    }
  }

  lemma RemoveOne<T>(s: seq<T>, p: nat)
    requires Distinct(s) && p < |s|
    ensures Members(Remove(s, p)) == Members(s) - {s[p]}
  {
    var t := Remove(s, p);
    forall x ensures x in t <==> x in s && x != s[p] {
      if x in s && x != s[p] {
        var i :| 0 <= i < |s| && s[i] == x;
        assert t[if i < p then i else i - 1] == x;
      }
    }
  }

  lemma ConsistentIsValid(m: ModuleAgenda)
    requires m.Consistent()
    ensures m.Valid() && m.ListValid()
  {
  }

  lemma PartitionAdd(lists: seq<seq<Activation>>, all: set<Activation>, fired: set<Activation>,
                     i: nat, s: seq<Activation>, a: Activation)
    requires Partition(lists, all, fired) && i < |lists| && a !in all && Members(s) == Members(lists[i]) + {a}
    ensures Partition(lists[i := s], all + {a}, fired)
  {
    DisjointUpdate(lists, all, i, s, all + {a});
    var after := lists[i := s];
    forall b | b in all + {a} ensures b in fired <==> !OnSome(after, b) {
      assert b in s <==> b in Members(s);
      if OnSome(lists, b) {
        var j :| 0 <= j < |lists| && b in lists[j];
        assert b in Members(lists[j]) && b in after[j];
      }
      if OnSome(after, b) && b != a {
        var j :| 0 <= j < |after| && b in after[j];
        assert b in Members(lists[j]) && b in lists[j];
      }
      assert b == a ==> b in after[i];
    }
  }

  lemma {:induction false} DistinctMembers<T>(s: seq<T>)
    requires Distinct(s)
    ensures |Members(s)| == |s|
  {
    if s != [] {
      DistinctMembers(s[1..]);
      assert Members(s) == Members(s[1..]) + {s[0]};
    }
  }

  ghost predicate Known(lists: seq<seq<Activation>>, before: map<Rule, int>) {
    forall j, p :: 0 <= j < |lists| && 0 <= p < |lists[j]| ==> lists[j][p].rule in before
  }

  /** The activations of the first `i` modules, and the rules, have the saliences that the evaluations up
      to there gave; `before` are the rules' old saliences. */
  ghost predicate RefreshedTo(lists: seq<seq<Activation>>, i: nat, evaluated: nat -> nat -> Evaluated,
                              before: map<Rule, int>)
    requires Known(lists, before)
    reads before.Keys`salience, (set j, p | 0 <= j < |lists| && 0 <= p < |lists[j]| :: lists[j][p])`salience
  {
    && i <= |lists|
    && (forall r :: r in before ==> r.salience == SalienceThrough(lists, i, r, evaluated, before[r]))
    && forall j :: 0 <= j < i ==> ListRefreshed(lists, j, evaluated, before)
  }

  ghost predicate ListRefreshed(lists: seq<seq<Activation>>, j: nat, evaluated: nat -> nat -> Evaluated,
                                before: map<Rule, int>)
    requires Known(lists, before) && j < |lists|
    reads lists[j]`salience
  {
    forall p :: 0 <= p < |lists[j]| ==>
      lists[j][p].salience == SalienceAfter(lists[j], p + 1, lists[j][p].rule, evaluated(j),
        SalienceThrough(lists, j, lists[j][p].rule, evaluated, before[lists[j][p].rule]))
  }

  /** The salience of `rule` once the agendas of the first `i` modules were evaluated one after another. */
  ghost function SalienceThrough(lists: seq<seq<Activation>>, i: nat, rule: Rule, evaluated: nat -> nat -> Evaluated,
                                 before: int): int
    requires i <= |lists|
  {
    if i == 0 then before
    else SalienceAfter(lists[i - 1], |lists[i - 1]|, rule, evaluated(i - 1),
                       SalienceThrough(lists, i - 1, rule, evaluated, before))
  }
}
