/**
 The flattened task graph used for retries: tasks of all subpipelines under qualified names, where
 every task of a subpipeline also depends on all tasks of the subpipelines it depends on.
 */
module Qualified {
  import opened Graph
  import opened Listing
  import opened Levels
  import opened Dag

  datatype Sub = Sub(name: string, tasks: seq<Decl<string>>, dependsOn: seq<string>)

  /** A task together with the subpipeline it is declared in. */
  datatype Place = Place(sub: Sub, task: Decl<string>)

  function Prefix(sub: string): string { sub + "." }

  function Qualify(sub: string, task: string): string { Prefix(sub) + task }

  function QualifyAll(sub: string, tasks: seq<string>): seq<string> {
    seq(|tasks|, i requires 0 <= i < |tasks| => Qualify(sub, tasks[i]))
  }

  function TaskNames(sub: Sub): seq<string> {
    seq(|sub.tasks|, i requires 0 <= i < |sub.tasks| => Qualify(sub.name, sub.tasks[i].name))
  }

  /** The recorded task names of a subpipeline; none for a name that is not declared. */
  function TasksOf(subs: seq<Sub>, name: string): seq<string> {
    if subs == [] then []
    else if subs[|subs| - 1].name == name then TaskNames(subs[|subs| - 1])
    else TasksOf(subs[..|subs| - 1], name)
  }

  /** The task names behind a list of subpipeline names. */
  function TasksBehind(subs: seq<Sub>, deps: seq<string>): seq<string> {
    if deps == [] then []
    else TasksBehind(subs, deps[..|deps| - 1]) + TasksOf(subs, deps[|deps| - 1])
  }

  function Places(subs: seq<Sub>): seq<Place> {
    if subs == [] then []
    else
      var sub := subs[|subs| - 1];
      Places(subs[..|subs| - 1]) + seq(|sub.tasks|, i requires 0 <= i < |sub.tasks| => Place(sub, sub.tasks[i]))
  }

  function NameOfPlace(p: Place): string { Qualify(p.sub.name, p.task.name) }

  function OwnDecl(p: Place): Decl<string> {
    Decl(NameOfPlace(p), QualifyAll(p.sub.name, p.task.dependsOn))
  }

  function OwnDecls(subs: seq<Sub>): seq<Decl<string>> {
    seq(|Places(subs)|, k requires 0 <= k < |Places(subs)| => OwnDecl(Places(subs)[k]))
  }

  /** What the string test adds to a task: the subpipelines whose prefix its name starts with. */
  function Inherited(subs: seq<Sub>, all: seq<Sub>, qname: string): seq<string> {
    if subs == [] then []
    else
      var sub := subs[|subs| - 1];
      Inherited(subs[..|subs| - 1], all, qname) + When(Prefix(sub.name) <= qname, TasksBehind(all, sub.dependsOn))
  }

  function When(cond: bool, names: seq<string>): seq<string> {
    if cond then names else []
  }

  function Extended(d: Decl<string>, more: seq<string>): Decl<string> {
    Decl(d.name, d.dependsOn + more)
  }

  /** The flattened declarations as the code produces them. */
  function Flatten(subs: seq<Sub>): (r: seq<Decl<string>>)
    ensures |r| == |Places(subs)|
  {
    var own := OwnDecls(subs);
    seq(|own|, k requires 0 <= k < |own| => Extended(own[k], Inherited(subs, subs, own[k].name)))
  }

  /** The flattened declarations as they are meant: a task inherits from its own subpipeline only. */
  function Intended(subs: seq<Sub>): (r: seq<Decl<string>>)
    ensures |r| == |Places(subs)|
  {
    var places := Places(subs);
    seq(|places|, k requires 0 <= k < |places| =>
      Extended(OwnDecl(places[k]), TasksBehind(subs, places[k].sub.dependsOn)))
  }

  // ---------- the code ----------

  ghost predicate DistinctObjects(tasks: seq<ResolvedTask<string>>) {
    forall i, j :: 0 <= i < j < |tasks| ==> tasks[i] != tasks[j]
  }

  /** Creates the qualified tasks with their own dependencies only. */
  method QualifyTasks(subs: seq<Sub>) returns (qualified: seq<ResolvedTask<string>>)
    ensures DistinctObjects(qualified) && forall k :: 0 <= k < |qualified| ==> fresh(qualified[k])
    ensures |qualified| == |Places(subs)|
    ensures forall k :: 0 <= k < |qualified| ==>
      Decl(qualified[k].name, qualified[k].dependsOn) == OwnDecl(Places(subs)[k])
  {
    qualified := [];
    for i := 0 to |subs|
      invariant DistinctObjects(qualified) && forall k :: 0 <= k < |qualified| ==> fresh(qualified[k])
      invariant |qualified| == |Places(subs[..i])|
      invariant forall k :: 0 <= k < |qualified| ==>
        Decl(qualified[k].name, qualified[k].dependsOn) == OwnDecl(Places(subs[..i])[k])
    {
      hide OwnDecl;
      var sub := subs[i];
      assert subs[..i + 1][..i] == subs[..i];
      ghost var before := |qualified|;
      for t := 0 to |sub.tasks|
        invariant DistinctObjects(qualified) && forall k :: 0 <= k < |qualified| ==> fresh(qualified[k])
        invariant |qualified| == before + t && before == |Places(subs[..i])|
        invariant forall k :: 0 <= k < |qualified| ==>
          Decl(qualified[k].name, qualified[k].dependsOn) == OwnDecl(Places(subs[..i + 1])[k])
      {
        var qt := QualifyTask(Place(sub, sub.tasks[t]));
        qualified := qualified + [qt];
      }
    }
    assert subs[..|subs|] == subs;
  }

  method QualifyTask(p: Place) returns (qt: ResolvedTask<string>)
    ensures fresh(qt) && Decl(qt.name, qt.dependsOn) == OwnDecl(p)
  {
    qt := new ResolvedTask(NameOfPlace(p), QualifyAll(p.sub.name, p.task.dependsOn));
  }

  /** Appends the names to every task whose qualified name starts with the prefix. */
  method Inherit(qualified: seq<ResolvedTask<string>>, prefix: string, names: seq<string>)
    requires DistinctObjects(qualified)
    modifies qualified
    ensures forall k :: 0 <= k < |qualified| ==>
      qualified[k].dependsOn == old(qualified[k].dependsOn) + When(prefix <= qualified[k].name, names)
  {
    for k := 0 to |qualified|
      invariant forall m :: 0 <= m < |qualified| ==>
        qualified[m].dependsOn == old(qualified[m].dependsOn) + When(m < k && prefix <= qualified[m].name, names)
    {
      if prefix <= qualified[k].name {
        qualified[k].dependsOn := qualified[k].dependsOn + names;
      }
    }
  }

  /** Appends, for one subpipeline, the tasks of everything it depends on. */
  method InheritAll(qualified: seq<ResolvedTask<string>>, sub: Sub, all: seq<Sub>)
    requires DistinctObjects(qualified)
    modifies qualified
    ensures forall k :: 0 <= k < |qualified| ==>
      qualified[k].dependsOn ==
        old(qualified[k].dependsOn) + When(Prefix(sub.name) <= qualified[k].name, TasksBehind(all, sub.dependsOn))
  {
    hide Prefix, TasksOf;
    for j := 0 to |sub.dependsOn|
      invariant forall k :: 0 <= k < |qualified| ==>
        qualified[k].dependsOn == old(qualified[k].dependsOn) +
          When(Prefix(sub.name) <= qualified[k].name, TasksBehind(all, sub.dependsOn[..j]))
    {
      label Before:
      assert sub.dependsOn[..j + 1][..j] == sub.dependsOn[..j];
      Inherit(qualified, Prefix(sub.name), TasksOf(all, sub.dependsOn[j]));
      forall k | 0 <= k < |qualified|
        ensures qualified[k].dependsOn == old(qualified[k].dependsOn) +
          When(Prefix(sub.name) <= qualified[k].name, TasksBehind(all, sub.dependsOn[..j + 1]))
      {
        assert qualified[k].dependsOn == old@Before(qualified[k].dependsOn) +
          When(Prefix(sub.name) <= qualified[k].name, TasksOf(all, sub.dependsOn[j]));
      }
    }
    assert sub.dependsOn[..|sub.dependsOn|] == sub.dependsOn;
  }

  /** The tasks of all subpipelines under qualified names, with the inherited dependencies. */
  method BuildQualifiedTasks(subs: seq<Sub>) returns (qualified: seq<ResolvedTask<string>>)
    ensures forall k :: 0 <= k < |qualified| ==> fresh(qualified[k])
    ensures Decls(qualified) == Flatten(subs)
  {
    hide Places, OwnDecl, TasksBehind, Prefix;
    qualified := QualifyTasks(subs);
    ghost var own := OwnDecls(subs);
    for i := 0 to |subs|
      invariant |qualified| == |own|
      invariant forall k :: 0 <= k < |qualified| ==>
        Decl(qualified[k].name, qualified[k].dependsOn) == Extended(own[k], Inherited(subs[..i], subs, own[k].name))
    {
      assert subs[..i + 1][..i] == subs[..i];
      InheritAll(qualified, subs[i], subs);
    }
    assert subs[..|subs|] == subs;
  }

  // ---------- when the string test finds the right tasks ----------

  /** No task carries the prefix of a foreign subpipeline that has something to pass on. */
  ghost predicate NoForeignPrefix(subs: seq<Sub>) {
    forall i, k :: 0 <= i < |subs| && 0 <= k < |Places(subs)| ==>
      !ForeignPrefix(subs[i], Places(subs)[k]) || TasksBehind(subs, subs[i].dependsOn) == []
  }

  ghost predicate ForeignPrefix(sub: Sub, p: Place) {
    sub != p.sub && Prefix(sub.name) <= NameOfPlace(p)
  }

  ghost predicate DistinctSubs(subs: seq<Sub>) {
    forall i, j :: 0 <= i < j < |subs| ==> subs[i].name != subs[j].name
  }

  lemma {:induction false} PlaceInside(subs: seq<Sub>, k: nat) returns (i: nat, t: nat)
    requires k < |Places(subs)|
    ensures i < |subs| && subs[i] == Places(subs)[k].sub
    ensures t < |subs[i].tasks| && subs[i].tasks[t] == Places(subs)[k].task
  {
    var front := subs[..|subs| - 1];
    if k < |Places(front)| {
      i, t := PlaceInside(front, k);
    } else {
      i, t := |subs| - 1, k - |Places(front)|;
    }
  }

  lemma PrefixOfOwn(p: Place)
    ensures Prefix(p.sub.name) <= NameOfPlace(p)
  {
  }

  /** Nothing is inherited beyond what foreign prefixes and the own subpipeline contribute. */
  lemma {:induction false} InheritedSize(subs: seq<Sub>, all: seq<Sub>, p: Place)
    requires DistinctSubs(subs)
    ensures p.sub in subs ==>
      (Inherited(subs, all, NameOfPlace(p)) == TasksBehind(all, p.sub.dependsOn) <==> NothingForeign(subs, all, p))
    ensures p.sub !in subs ==>
      (Inherited(subs, all, NameOfPlace(p)) == [] <==> NothingForeign(subs, all, p))
    ensures |Inherited(subs, all, NameOfPlace(p))| >= if p.sub in subs then |TasksBehind(all, p.sub.dependsOn)| else 0
  {
    if subs != [] {
      hide NothingForeign, Prefix, NameOfPlace, TasksBehind;
      var front, sub := subs[..|subs| - 1], subs[|subs| - 1];
      assert subs == front + [sub];
      InheritedSize(front, all, p);
      PrefixOfOwn(p);
      assert sub !in front;
      NothingForeignSnoc(front, sub, all, p);
      var before, more := Inherited(front, all, NameOfPlace(p)), TasksBehind(all, sub.dependsOn);
      if Prefix(sub.name) <= NameOfPlace(p) {
        assert Inherited(subs, all, NameOfPlace(p)) == before + more;
        assert before + more == more <==> |before| == 0;
        assert |before + more| == |before| <==> more == [];
      } else {
        assert Inherited(subs, all, NameOfPlace(p)) == before + [] == before;
      }
    }
  }

  ghost predicate NothingForeign(subs: seq<Sub>, all: seq<Sub>, p: Place) {
    forall i :: 0 <= i < |subs| ==> !ForeignPrefix(subs[i], p) || TasksBehind(all, subs[i].dependsOn) == []
  }

  lemma NothingForeignSnoc(front: seq<Sub>, sub: Sub, all: seq<Sub>, p: Place)
    ensures NothingForeign(front + [sub], all, p) <==>
      NothingForeign(front, all, p) && (!ForeignPrefix(sub, p) || TasksBehind(all, sub.dependsOn) == [])
  {
    var subs := front + [sub];
    if NothingForeign(front + [sub], all, p) {
      assert subs[|front|] == sub;
      forall i | 0 <= i < |front|
        ensures !ForeignPrefix(front[i], p) || TasksBehind(all, front[i].dependsOn) == []
      {
        assert subs[i] == front[i];
      }
    }
  }

  /** The code flattens as meant exactly when no foreign prefix matches. */
  lemma FlattenAsIntended(subs: seq<Sub>)
    requires DistinctSubs(subs)
    ensures Flatten(subs) == Intended(subs) <==> NoForeignPrefix(subs)
  {
    var places := Places(subs);
    forall k | 0 <= k < |places|
      ensures Flatten(subs)[k] == Intended(subs)[k] <==> NothingForeign(subs, subs, places[k])
    {
      var i, t := PlaceInside(subs, k);
      InheritedSize(subs, subs, places[k]);
      SameExtension(OwnDecl(places[k]), Inherited(subs, subs, NameOfPlace(places[k])),
        TasksBehind(subs, places[k].sub.dependsOn));
    }
    assert NoForeignPrefix(subs) <==> forall k :: 0 <= k < |places| ==> NothingForeign(subs, subs, places[k]);
    assert Flatten(subs) == Intended(subs) <==>
      forall k :: 0 <= k < |places| ==> Flatten(subs)[k] == Intended(subs)[k];
  }

  lemma SameExtension(d: Decl<string>, a: seq<string>, b: seq<string>)
    ensures Extended(d, a) == Extended(d, b) <==> a == b
  {
    if d.dependsOn + a == d.dependsOn + b {
      assert a == (d.dependsOn + a)[|d.dependsOn|..];
      assert b == (d.dependsOn + b)[|d.dependsOn|..];
    }
  }

  /** Names without dots are enough: their prefixes match their own tasks only. */
  lemma DotlessHasNoForeignPrefix(subs: seq<Sub>)
    requires DistinctSubs(subs)
    requires forall i :: 0 <= i < |subs| ==> '.' !in subs[i].name
    ensures NoForeignPrefix(subs)
  {
    forall i, k | 0 <= i < |subs| && 0 <= k < |Places(subs)| && Prefix(subs[i].name) <= NameOfPlace(Places(subs)[k])
      ensures subs[i] == Places(subs)[k].sub
    {
      var j, t := PlaceInside(subs, k);
      DotlessPrefix(subs[i].name, subs[j].name, subs[j].tasks[t].name);
    }
  }

  lemma DotlessPrefix(s: string, s': string, t: string)
    requires '.' !in s && '.' !in s' && Prefix(s) <= Qualify(s', t)
    ensures s == s'
  {
    var q := Qualify(s', t);
    assert Prefix(s)[|s|] == '.' && q[|s'|] == '.';
    assert forall i :: 0 <= i < |s| ==> q[i] == s[i] && q[i] != '.';
    assert forall i :: 0 <= i < |s'| ==> q[i] == s'[i] && q[i] != '.';
    assert s == q[..|s|];
  }

  // ---------- acyclicity ----------

  /** The subpipelines as the runner's levelling sees them. */
  function SubDecls(subs: seq<Sub>): (r: seq<Decl<string>>)
    ensures |r| == |subs|
    ensures forall i :: 0 <= i < |subs| ==> r[i].name == subs[i].name && r[i].dependsOn == subs[i].dependsOn
  {
    seq(|subs|, i requires 0 <= i < |subs| => Decl(subs[i].name, subs[i].dependsOn))
  }

  /**
   Two-level graphs: every edge either stays inside an owner, along that owner's own graph, or
   moves to an owner the current one depends on.
   */
  ghost predicate TwoLevel<T(!new), S(!new), L(!new)>(
    g: Graph<T>, owner: map<T, S>, local: map<T, L>, outer: Graph<S>, inner: map<S, Graph<L>>
  ) {
    && Closed(g) && owner.Keys == local.Keys == g.Keys
    && forall n, d :: n in g && d in g[n] ==> OwnEdge(n, d, owner, local, inner) || OuterEdge(n, d, owner, outer)
  }

  ghost predicate OwnEdge<T, S, L>(n: T, d: T, owner: map<T, S>, local: map<T, L>, inner: map<S, Graph<L>>) {
    && n in owner && d in owner && n in local && d in local && owner[n] == owner[d]
    && owner[n] in inner && local[n] in inner[owner[n]] && local[d] in inner[owner[n]][local[n]]
  }

  ghost predicate OuterEdge<T, S>(n: T, d: T, owner: map<T, S>, outer: Graph<S>) {
    n in owner && d in owner && owner[n] in outer && owner[d] in outer[owner[n]]
  }

  ghost predicate OwnWalk<T, S, L(!new)>(
    a: T, b: T, k: nat, owner: map<T, S>, local: map<T, L>, inner: map<S, Graph<L>>
  ) {
    && a in owner && b in owner && a in local && b in local && owner[a] == owner[b]
    && owner[a] in inner && Steps(inner[owner[a]], local[a], local[b], k)
  }

  /** A walk stays with its owner, following the owner's graph, or arrives at an owner depended on. */
  lemma {:induction false} TwoLevelSteps<T(!new), S(!new), L(!new)>(
    g: Graph<T>, owner: map<T, S>, local: map<T, L>, outer: Graph<S>, inner: map<S, Graph<L>>, a: T, b: T, k: nat
  )
    requires TwoLevel(g, owner, local, outer, inner) && a in g && k > 0 && Steps(g, a, b, k)
    ensures b in g && (OwnWalk(a, b, k, owner, local, inner) || Reach(outer, owner[a], owner[b]))
  {
    var d :| d in g[a] && Steps(g, d, b, k - 1);
    if k > 1 {
      TwoLevelSteps(g, owner, local, outer, inner, d, b, k - 1);
    }
    if OwnEdge(a, d, owner, local, inner) {
      if k == 1 {
        assert Steps(inner[owner[a]], local[d], local[b], 0);
      }
    } else {
      ReachEdge(outer, owner[a], owner[d]);
      if k > 1 && Reach(outer, owner[d], owner[b]) {
        ReachTransitive(outer, owner[a], owner[d], owner[b]);
      }
    }
  }

  /** When the outer graph and every inner graph are acyclic, so is the whole. */
  lemma TwoLevelAcyclic<T(!new), S(!new), L(!new)>(
    g: Graph<T>, owner: map<T, S>, local: map<T, L>, outer: Graph<S>, inner: map<S, Graph<L>>
  )
    requires TwoLevel(g, owner, local, outer, inner)
    requires !Cyclic(outer) && forall s :: s in inner ==> !Cyclic(inner[s])
    ensures !Cyclic(g)
  {
    forall a
      ensures !Reach(g, a, a)
    {
      if Reach(g, a, a) {
        ReachInside(g, a, a);
        var k: nat :| k > 0 && Steps(g, a, a, k);
        TwoLevelSteps(g, owner, local, outer, inner, a, a, k);
        if OwnWalk(a, a, k, owner, local, inner) {
          assert Reach(inner[owner[a]], local[a], local[a]);
        }
      }
    }
  }

  // ---------- the flattened graph is a two-level graph ----------

  /** What run creation already checked of every subpipeline on its own. */
  ghost predicate SoundSub(sub: Sub) {
    Distinct(Names(sub.tasks)) && KnownDependencies(sub.tasks) && !Cyclic(GraphFrom(sub.tasks))
  }

  ghost predicate SoundSubs(subs: seq<Sub>) {
    && DistinctSubs(subs)
    && (forall i :: 0 <= i < |subs| ==> SoundSub(subs[i]))
    && Distinct(QualifiedNames(subs))
  }

  function QualifiedNames(subs: seq<Sub>): seq<string> {
    seq(|Places(subs)|, k requires 0 <= k < |Places(subs)| => NameOfPlace(Places(subs)[k]))
  }

  lemma NamesOfFlat(subs: seq<Sub>)
    ensures Names(Intended(subs)) == QualifiedNames(subs) == Names(Flatten(subs))
  {
  }

  ghost function Owners(subs: seq<Sub>): map<string, string> {
    map n | n in Elements(QualifiedNames(subs)) :: Places(subs)[IndexOf(QualifiedNames(subs), n)].sub.name
  }

  ghost function Locals(subs: seq<Sub>): map<string, string> {
    map n | n in Elements(QualifiedNames(subs)) :: Places(subs)[IndexOf(QualifiedNames(subs), n)].task.name
  }

  ghost function Inner(subs: seq<Sub>): map<string, Graph<string>> {
    map s | s in Elements(Names(SubDecls(subs))) :: GraphFrom(subs[IndexOf(Names(SubDecls(subs)), s)].tasks)
  }

  lemma OwnerAt(subs: seq<Sub>, k: nat)
    requires Distinct(QualifiedNames(subs)) && k < |Places(subs)|
    ensures var n := NameOfPlace(Places(subs)[k]);
      && n in Elements(QualifiedNames(subs)) && n in Owners(subs) && n in Locals(subs)
      && Owners(subs)[n] == Places(subs)[k].sub.name && Locals(subs)[n] == Places(subs)[k].task.name
  {
    var names := QualifiedNames(subs);
    assert names[k] == NameOfPlace(Places(subs)[k]);
    var j := IndexOf(names, names[k]);
    assert names[j] == names[k];
  }

  lemma InnerAt(subs: seq<Sub>, i: nat)
    requires DistinctSubs(subs) && i < |subs|
    ensures subs[i].name in Inner(subs) && Inner(subs)[subs[i].name] == GraphFrom(subs[i].tasks)
  {
    var names := Names(SubDecls(subs));
    assert names[i] == subs[i].name;
    var j := IndexOf(names, names[i]);
    assert names[j] == subs[j].name;
  }

  lemma OuterAt(subs: seq<Sub>, i: nat)
    requires DistinctSubs(subs) && i < |subs|
    ensures subs[i].name in GraphFrom(SubDecls(subs)) && GraphFrom(SubDecls(subs))[subs[i].name] == subs[i].dependsOn
  {
    var decls := SubDecls(subs);
    assert forall j :: 0 <= j < |decls| ==> Names(decls)[j] == subs[j].name;
    assert Distinct(Names(decls));
    GraphFromIsGraphOf(decls);
    assert decls[i].name == subs[i].name;
  }

  lemma {:induction false} PlaceOf(subs: seq<Sub>, i: nat, t: nat) returns (k: nat)
    requires i < |subs| && t < |subs[i].tasks|
    ensures k < |Places(subs)| && Places(subs)[k] == Place(subs[i], subs[i].tasks[t])
  {
    var front := subs[..|subs| - 1];
    if i < |front| {
      k := PlaceOf(front, i, t);
    } else {
      k := |Places(front)| + t;
    }
  }

  lemma {:induction false} BehindComesFrom(subs: seq<Sub>, deps: seq<string>, d: string) returns (i: nat, t: nat)
    requires d in TasksBehind(subs, deps)
    ensures i < |subs| && subs[i].name in deps && t < |subs[i].tasks|
    ensures d == Qualify(subs[i].name, subs[i].tasks[t].name)
  {
    var front, last := deps[..|deps| - 1], deps[|deps| - 1];
    assert deps == front + [last];
    if d in TasksBehind(subs, front) {
      i, t := BehindComesFrom(subs, front, d);
    } else {
      i, t := TaskComesFrom(subs, last, d);
    }
  }

  lemma {:induction false} TaskComesFrom(subs: seq<Sub>, name: string, d: string) returns (i: nat, t: nat)
    requires d in TasksOf(subs, name)
    ensures i < |subs| && subs[i].name == name && t < |subs[i].tasks| && d == Qualify(name, subs[i].tasks[t].name)
  {
    var last := subs[|subs| - 1];
    if last.name == name {
      i := |subs| - 1;
      t :| 0 <= t < |last.tasks| && TaskNames(last)[t] == d;
    } else {
      i, t := TaskComesFrom(subs[..|subs| - 1], name, d);
    }
  }

  /** Where an edge of the flattened graph leads. */
  lemma FlatEdge(subs: seq<Sub>, k: nat, d: string)
    requires SoundSubs(subs) && k < |Places(subs)| && d in Intended(subs)[k].dependsOn
    ensures var n := NameOfPlace(Places(subs)[k]);
      OwnEdge(n, d, Owners(subs), Locals(subs), Inner(subs)) || OuterEdge(n, d, Owners(subs), GraphFrom(SubDecls(subs)))
  {
    hide Owners, Locals, Inner, SubDecls, Places, TasksBehind, Cyclic;
    var p := Places(subs)[k];
    var i, t := PlaceInside(subs, k);
    OwnerAt(subs, k);
    if d in QualifyAll(p.sub.name, p.task.dependsOn) {
      var j :| 0 <= j < |p.task.dependsOn| && Qualify(p.sub.name, p.task.dependsOn[j]) == d;
      assert p.task.dependsOn[j] in Names(p.sub.tasks);
      var u :| 0 <= u < |p.sub.tasks| && Names(p.sub.tasks)[u] == p.task.dependsOn[j];
      var m := PlaceOf(subs, i, u);
      OwnerAt(subs, m);
      InnerAt(subs, i);
      GraphFromIsGraphOf(p.sub.tasks);
      assert p.sub.tasks[t].name in GraphFrom(p.sub.tasks);
    } else {
      var j, u := BehindComesFrom(subs, p.sub.dependsOn, d);
      var m := PlaceOf(subs, j, u);
      OwnerAt(subs, m);
      OuterAt(subs, i);
    }
  }

  lemma FlatIsKnown(subs: seq<Sub>)
    requires SoundSubs(subs)
    ensures KnownDependencies(Intended(subs))
  {
    hide Places, TasksBehind, OwnEdge, OuterEdge, GraphFrom;
    var decls := Intended(subs);
    NamesOfFlat(subs);
    forall k, d | 0 <= k < |decls| && d in decls[k].dependsOn
      ensures d in Names(decls)
    {
      FlatEdge(subs, k, d);
      EdgeTarget(NameOfPlace(Places(subs)[k]), d, Owners(subs), Locals(subs), GraphFrom(SubDecls(subs)), Inner(subs));
    }
  }

  lemma FlatEdgeFrom(subs: seq<Sub>, n: string, d: string)
    requires SoundSubs(subs) && n in GraphFrom(Intended(subs)) && d in GraphFrom(Intended(subs))[n]
    ensures
      || OwnEdge(n, d, Owners(subs), Locals(subs), Inner(subs))
      || OuterEdge(n, d, Owners(subs), GraphFrom(SubDecls(subs)))
  {
    hide Places, TasksBehind, OwnEdge, OuterEdge, GraphFrom, Owners, Locals, Inner, SubDecls;
    var decls := Intended(subs);
    NamesOfFlat(subs);
    GraphFromIsGraphOf(decls);
    GraphFromKeys(decls);
    assert n in Names(decls);
    var k :| 0 <= k < |decls| && Names(decls)[k] == n;
    assert decls[k].name == n;
    assert d in decls[k].dependsOn;
    FlatEdge(subs, k, d);
  }

  lemma FlatIsTwoLevel(subs: seq<Sub>)
    requires SoundSubs(subs)
    ensures KnownDependencies(Intended(subs))
    ensures TwoLevel(GraphFrom(Intended(subs)), Owners(subs), Locals(subs), GraphFrom(SubDecls(subs)), Inner(subs))
  {
    hide Places, TasksBehind, OwnEdge, OuterEdge, GraphFrom, SoundSubs, Inner, SubDecls, Intended;
    FlatIsKnown(subs);
    NamesOfFlat(subs);
    GraphFromKeys(Intended(subs));
    var g := GraphFrom(Intended(subs));
    forall n, d | n in g && d in g[n]
      ensures d in g
      ensures
        || OwnEdge(n, d, Owners(subs), Locals(subs), Inner(subs))
        || OuterEdge(n, d, Owners(subs), GraphFrom(SubDecls(subs)))
    {
      FlatEdgeFrom(subs, n, d);
      EdgeTarget(n, d, Owners(subs), Locals(subs), GraphFrom(SubDecls(subs)), Inner(subs));
    }
  }

  lemma EdgeTarget<T, S, L>(
    n: T, d: T, owner: map<T, S>, local: map<T, L>, outer: Graph<S>, inner: map<S, Graph<L>>
  )
    requires OwnEdge(n, d, owner, local, inner) || OuterEdge(n, d, owner, outer)
    ensures d in owner
  {
  }

  /**
   If the subpipelines can be levelled and every subpipeline's own tasks can, then the flattened
   graph has no cycle and names no unknown task.
   */
  lemma FlattenedIsAcyclic(subs: seq<Sub>)
    requires SoundSubs(subs) && NoForeignPrefix(subs) && !Cyclic(GraphFrom(SubDecls(subs)))
    ensures KnownDependencies(Flatten(subs)) && !Cyclic(GraphFrom(Flatten(subs)))
  {
    hide Places, GraphFrom, Cyclic, Flatten, Intended, NoForeignPrefix;
    FlattenAsIntended(subs);
    FlatIsTwoLevel(subs);
    forall s | s in Inner(subs)
      ensures !Cyclic(Inner(subs)[s])
    {
      var i := IndexOf(Names(SubDecls(subs)), s);
      InnerAt(subs, i);
    }
    TwoLevelAcyclic(GraphFrom(Intended(subs)), Owners(subs), Locals(subs), GraphFrom(SubDecls(subs)), Inner(subs));
  }

  // ---------- order across subpipelines ----------

  lemma {:induction false} BehindContains(subs: seq<Sub>, deps: seq<string>, i: nat, t: nat)
    requires DistinctSubs(subs) && i < |subs| && t < |subs[i].tasks| && subs[i].name in deps
    ensures Qualify(subs[i].name, subs[i].tasks[t].name) in TasksBehind(subs, deps)
  {
    var front, last := deps[..|deps| - 1], deps[|deps| - 1];
    assert deps == front + [last];
    if last == subs[i].name {
      TasksContain(subs, i, t);
    } else {
      BehindContains(subs, front, i, t);
    }
  }

  lemma {:induction false} TasksContain(subs: seq<Sub>, i: nat, t: nat)
    requires DistinctSubs(subs) && i < |subs| && t < |subs[i].tasks|
    ensures Qualify(subs[i].name, subs[i].tasks[t].name) in TasksOf(subs, subs[i].name)
  {
    if i < |subs| - 1 {
      TasksContain(subs[..|subs| - 1], i, t);
    } else {
      assert TaskNames(subs[i])[t] == Qualify(subs[i].name, subs[i].tasks[t].name);
    }
  }

  ghost predicate HasTasks(subs: seq<Sub>, name: string) {
    exists i :: 0 <= i < |subs| && subs[i].name == name && subs[i].tasks != []
  }

  /** The subpipeline graph without the subpipelines that declare no task. */
  ghost function Solid(subs: seq<Sub>): Graph<string> {
    var outer := GraphFrom(SubDecls(subs));
    map s | s in outer && HasTasks(subs, s) :: outer[s]
  }

  lemma SolidAt(subs: seq<Sub>, i: nat)
    requires DistinctSubs(subs) && i < |subs|
    ensures subs[i].name in Solid(subs) <==> subs[i].tasks != []
    ensures subs[i].tasks != [] ==> Solid(subs)[subs[i].name] == subs[i].dependsOn
  {
    OuterAt(subs, i);
  }

  lemma NodeOfPlace(subs: seq<Sub>, k: nat)
    requires Distinct(QualifiedNames(subs)) && k < |Places(subs)|
    ensures var g := GraphFrom(Intended(subs));
      NameOfPlace(Places(subs)[k]) in g && g[NameOfPlace(Places(subs)[k])] == Intended(subs)[k].dependsOn
  {
    hide TasksBehind, Places;
    NamesOfFlat(subs);
    GraphFromIsGraphOf(Intended(subs));
    assert Intended(subs)[k].name == NameOfPlace(Places(subs)[k]);
  }

  /** Each task waits directly for every task of a subpipeline its own depends on. */
  lemma DirectlyBehind(subs: seq<Sub>, k: nat, m: nat)
    requires SoundSubs(subs) && k < |Places(subs)| && m < |Places(subs)|
    requires Places(subs)[m].sub.name in Places(subs)[k].sub.dependsOn
    ensures Reach(GraphFrom(Intended(subs)), NameOfPlace(Places(subs)[k]), NameOfPlace(Places(subs)[m]))
  {
    hide Places, TasksBehind, GraphFrom, Distinct;
    var i, t := PlaceInside(subs, m);
    BehindContains(subs, Places(subs)[k].sub.dependsOn, i, t);
    NodeOfPlace(subs, k);
    ReachEdge(GraphFrom(Intended(subs)), NameOfPlace(Places(subs)[k]), NameOfPlace(Places(subs)[m]));
  }

  lemma {:induction false} SolidWalk(subs: seq<Sub>, k: nat, m: nat, n: nat)
    requires SoundSubs(subs) && k < |Places(subs)| && m < |Places(subs)|
    requires n > 0 && Steps(Solid(subs), Places(subs)[k].sub.name, Places(subs)[m].sub.name, n)
    ensures Reach(GraphFrom(Intended(subs)), NameOfPlace(Places(subs)[k]), NameOfPlace(Places(subs)[m]))
    decreases n
  {
    hide Places, GraphFrom, Solid, Intended, NameOfPlace, Reach;
    var i, t := PlaceInside(subs, k);
    SolidAt(subs, i);
    var d :| d in Solid(subs)[subs[i].name] && Steps(Solid(subs), d, Places(subs)[m].sub.name, n - 1);
    if n == 1 {
      DirectlyBehind(subs, k, m);
    } else {
      var j := SolidNode(subs, d);
      var z := PlaceOf(subs, j, 0);
      DirectlyBehind(subs, k, z);
      SolidWalk(subs, z, m, n - 1);
      ReachTransitive(GraphFrom(Intended(subs)), NameOfPlace(Places(subs)[k]), NameOfPlace(Places(subs)[z]),
        NameOfPlace(Places(subs)[m]));
    }
  }

  lemma SolidNode(subs: seq<Sub>, d: string) returns (j: nat)
    requires d in Solid(subs)
    ensures j < |subs| && subs[j].name == d && subs[j].tasks != []
  {
    j :| 0 <= j < |subs| && subs[j].name == d && subs[j].tasks != [];
  }

  lemma FlatIsTwoLevelSolid(subs: seq<Sub>)
    requires SoundSubs(subs)
    ensures TwoLevel(GraphFrom(Intended(subs)), Owners(subs), Locals(subs), Solid(subs), Inner(subs))
  {
    hide Places, TasksBehind, GraphFrom, Owners, Locals, Inner, OwnEdge, Solid;
    FlatIsTwoLevel(subs);
    var g := GraphFrom(Intended(subs));
    forall n, d | n in g && d in g[n] && OuterEdge(n, d, Owners(subs), GraphFrom(SubDecls(subs)))
      ensures OuterEdge(n, d, Owners(subs), Solid(subs))
    {
      OwnerHasTasks(subs, n);
    }
  }

  lemma OwnerHasTasks(subs: seq<Sub>, n: string)
    requires SoundSubs(subs) && n in Owners(subs)
    ensures Owners(subs)[n] in Solid(subs) && Owners(subs)[n] in GraphFrom(SubDecls(subs))
    ensures Solid(subs)[Owners(subs)[n]] == GraphFrom(SubDecls(subs))[Owners(subs)[n]]
  {
    hide Places, GraphFrom;
    var k := IndexOf(QualifiedNames(subs), n);
    var i, t := PlaceInside(subs, k);
    SolidAt(subs, i);
    OuterAt(subs, i);
  }

  /**
   Across subpipelines, a task waits for another exactly when its subpipeline depends on the other's
   through subpipelines that all have tasks: an empty one in between breaks the order.
   */
  lemma CrossOrder(subs: seq<Sub>, k: nat, m: nat)
    requires SoundSubs(subs) && NoForeignPrefix(subs) && k < |Places(subs)| && m < |Places(subs)|
    requires Places(subs)[k].sub.name != Places(subs)[m].sub.name
    ensures Reach(GraphFrom(Flatten(subs)), NameOfPlace(Places(subs)[k]), NameOfPlace(Places(subs)[m])) <==>
      Reach(Solid(subs), Places(subs)[k].sub.name, Places(subs)[m].sub.name)
  {
    FlattenAsIntended(subs);
    hide Places, GraphFrom, Solid, Flatten, Intended, NameOfPlace, Owners, Locals, Inner, TwoLevel, Distinct;
    var a, b := NameOfPlace(Places(subs)[k]), NameOfPlace(Places(subs)[m]);
    var g := GraphFrom(Intended(subs));
    OwnerAt(subs, k);
    OwnerAt(subs, m);
    NodeOfPlace(subs, k);
    if Reach(g, a, b) {
      var n: nat :| n > 0 && Steps(g, a, b, n);
      FlatIsTwoLevelSolid(subs);
      TwoLevelSteps(g, Owners(subs), Locals(subs), Solid(subs), Inner(subs), a, b, n);
    }
    if Reach(Solid(subs), Places(subs)[k].sub.name, Places(subs)[m].sub.name) {
      var n: nat :| n > 0 && Steps(Solid(subs), Places(subs)[k].sub.name, Places(subs)[m].sub.name, n);
      SolidWalk(subs, k, m, n);
    }
  }

  const LAST_SUB := Sub("c", [Decl("y", [])], ["b"])
  const EMPTY_SUB := Sub("b", [], ["a"])
  const FIRST_SUB := Sub("a", [Decl("x", [])], [])

  /** With an empty subpipeline in between, the last one depends on the first, but its task waits for nothing. */
  lemma EmptySubLosesOrder()
    ensures var subs := [FIRST_SUB, EMPTY_SUB, LAST_SUB];
      Reach(GraphFrom(SubDecls(subs)), "c", "a") && !Reach(GraphFrom(Flatten(subs)), "c.y", "a.x")
  {
    var subs := [FIRST_SUB, EMPTY_SUB, LAST_SUB];
    EmptySubIsSound(subs);
    EmptySubPlaces(subs);
    EmptySubChain(subs);
    EmptySubCuts(subs);
    hide *;
    CrossOrder(subs, 1, 0);
  }

  lemma EmptySubChain(subs: seq<Sub>)
    requires subs == [FIRST_SUB, EMPTY_SUB, LAST_SUB] && DistinctSubs(subs)
    ensures Reach(GraphFrom(SubDecls(subs)), "c", "a")
  {
    hide GraphFrom, Reach;
    var g := GraphFrom(SubDecls(subs));
    OuterAt(subs, 2);
    OuterAt(subs, 1);
    ReachEdge(g, "c", "b");
    ReachEdge(g, "b", "a");
    ReachTransitive(g, "c", "b", "a");
  }

  lemma EmptySubCuts(subs: seq<Sub>)
    requires subs == [FIRST_SUB, EMPTY_SUB, LAST_SUB] && DistinctSubs(subs)
    ensures !Reach(Solid(subs), "c", "a") && "c" != "a"
  {
    hide GraphFrom, Solid;
    SolidAt(subs, 1);
    SolidAt(subs, 2);
    assert "a"[0] == 'a' && "b"[0] == 'b' && "c"[0] == 'c';
    forall k: nat | k > 0
      ensures !Steps(Solid(subs), "c", "a", k)
    {
      assert forall d :: d in Solid(subs)["c"] ==> d == "b";
      assert !Steps(Solid(subs), "b", "a", k - 1);
    }
  }

  lemma EmptySubPlaces(subs: seq<Sub>)
    requires subs == [FIRST_SUB, EMPTY_SUB, LAST_SUB]
    ensures |Places(subs)| == 2
    ensures Places(subs)[0].sub == FIRST_SUB && NameOfPlace(Places(subs)[0]) == "a.x"
    ensures Places(subs)[1].sub == LAST_SUB && NameOfPlace(Places(subs)[1]) == "c.y"
  {
    assert subs[..2] == [FIRST_SUB, EMPTY_SUB] && [FIRST_SUB, EMPTY_SUB][..1] == [FIRST_SUB];
    assert [FIRST_SUB][..0] == [];
    assert Places([FIRST_SUB]) == [Place(FIRST_SUB, FIRST_SUB.tasks[0])];
    assert Places([FIRST_SUB, EMPTY_SUB]) == [Place(FIRST_SUB, FIRST_SUB.tasks[0])];
    assert Places(subs) == [Place(FIRST_SUB, FIRST_SUB.tasks[0]), Place(LAST_SUB, LAST_SUB.tasks[0])];
  }

  lemma EmptySubIsSound(subs: seq<Sub>)
    requires subs == [FIRST_SUB, EMPTY_SUB, LAST_SUB]
    ensures SoundSubs(subs) && NoForeignPrefix(subs)
  {
    assert "a"[0] == 'a' && "b"[0] == 'b' && "c"[0] == 'c';
    assert DistinctSubs(subs);
    forall i | 0 <= i < |subs|
      ensures SoundSub(subs[i]) && '.' !in subs[i].name
    {
      FreeTasksAreSound(subs[i]);
    }
    DotlessHasNoForeignPrefix(subs);
    DotlessNamesAreDistinct(subs);
  }

  /** Without dependencies nothing can go wrong. */
  lemma FreeTasksAreSound(sub: Sub)
    requires Distinct(Names(sub.tasks)) && forall t :: 0 <= t < |sub.tasks| ==> sub.tasks[t].dependsOn == []
    ensures SoundSub(sub)
  {
    GraphFromIsGraphOf(sub.tasks);
    var g := GraphFrom(sub.tasks);
    forall n | n in g
      ensures g[n] == []
    {
      assert n in Names(sub.tasks);
    }
    RankedIsAcyclic(g, map n | n in g :: 0);
  }

  // ---------- order inside a subpipeline ----------

  function TaskName(sub: Sub, t: nat): string
    requires t < |sub.tasks|
  {
    Qualify(sub.name, sub.tasks[t].name)
  }

  lemma OwnDependency(subs: seq<Sub>, k: nat, d: string)
    requires SoundSubs(subs) && k < |Places(subs)| && d in Places(subs)[k].task.dependsOn
    ensures Reach(GraphFrom(Intended(subs)), NameOfPlace(Places(subs)[k]), Qualify(Places(subs)[k].sub.name, d))
  {
    hide Places, TasksBehind, GraphFrom, Distinct;
    var p := Places(subs)[k];
    var j :| 0 <= j < |p.task.dependsOn| && p.task.dependsOn[j] == d;
    assert QualifyAll(p.sub.name, p.task.dependsOn)[j] == Qualify(p.sub.name, d);
    assert Qualify(p.sub.name, d) in Intended(subs)[k].dependsOn;
    NodeOfPlace(subs, k);
    ReachEdge(GraphFrom(Intended(subs)), NameOfPlace(p), Qualify(p.sub.name, d));
  }

  lemma {:induction false} OwnWalkKept(subs: seq<Sub>, i: nat, a: string, b: string, n: nat)
    requires SoundSubs(subs) && i < |subs| && n > 0 && Steps(GraphFrom(subs[i].tasks), a, b, n)
    ensures Reach(GraphFrom(Intended(subs)), Qualify(subs[i].name, a), Qualify(subs[i].name, b))
    decreases n
  {
    hide Places, GraphFrom, Intended, Distinct, Reach;
    var g, name := GraphFrom(subs[i].tasks), subs[i].name;
    var d :| d in g[a] && Steps(g, d, b, n - 1);
    GraphFromIsGraphOf(subs[i].tasks);
    GraphFromKeys(subs[i].tasks);
    assert a in Names(subs[i].tasks);
    var t :| 0 <= t < |subs[i].tasks| && Names(subs[i].tasks)[t] == a;
    assert subs[i].tasks[t].name == a;
    var k := PlaceOf(subs, i, t);
    OwnDependency(subs, k, d);
    if n > 1 {
      OwnWalkKept(subs, i, d, b, n - 1);
      ReachTransitive(GraphFrom(Intended(subs)), Qualify(name, a), Qualify(name, d), Qualify(name, b));
    }
  }

  /** Inside a subpipeline a task waits for another exactly when it is declared to, directly or not. */
  lemma InnerOrder(subs: seq<Sub>, i: nat, t: nat, u: nat)
    requires SoundSubs(subs) && NoForeignPrefix(subs) && !Cyclic(GraphFrom(SubDecls(subs)))
    requires i < |subs| && t < |subs[i].tasks| && u < |subs[i].tasks|
    ensures Reach(GraphFrom(Flatten(subs)), TaskName(subs[i], t), TaskName(subs[i], u)) <==>
      Reach(GraphFrom(subs[i].tasks), subs[i].tasks[t].name, subs[i].tasks[u].name)
  {
    FlattenAsIntended(subs);
    hide Places, GraphFrom, Flatten, Intended, Owners, Locals, Inner, TwoLevel, Distinct;
    var a, b := TaskName(subs[i], t), TaskName(subs[i], u);
    var g, own := GraphFrom(Intended(subs)), GraphFrom(subs[i].tasks);
    var k := PlaceOf(subs, i, t);
    var m := PlaceOf(subs, i, u);
    OwnerAt(subs, k);
    OwnerAt(subs, m);
    NodeOfPlace(subs, k);
    InnerAt(subs, i);
    if Reach(g, a, b) {
      var n: nat :| n > 0 && Steps(g, a, b, n);
      FlatIsTwoLevel(subs);
      TwoLevelSteps(g, Owners(subs), Locals(subs), GraphFrom(SubDecls(subs)), Inner(subs), a, b, n);
      assert Steps(own, subs[i].tasks[t].name, subs[i].tasks[u].name, n);
    }
    if Reach(own, subs[i].tasks[t].name, subs[i].tasks[u].name) {
      var n: nat :| n > 0 && Steps(own, subs[i].tasks[t].name, subs[i].tasks[u].name, n);
      OwnWalkKept(subs, i, subs[i].tasks[t].name, subs[i].tasks[u].name, n);
    }
  }

  /** Whatever one task waited for in the run, where the tasks were chained, it waits for in the retry. */
  ghost predicate RetryKeepsOrder(subs: seq<Sub>, i: nat)
    requires i < |subs|
  {
    forall t, u {:trigger TaskName(subs[i], t), TaskName(subs[i], u)} ::
      0 <= t < |subs[i].tasks| && 0 <= u < |subs[i].tasks| &&
      Reach(GraphFrom(Chained(subs[i].tasks)), subs[i].tasks[t].name, subs[i].tasks[u].name) ==>
        Reach(GraphFrom(Flatten(subs)), TaskName(subs[i], t), TaskName(subs[i], u))
  }

  /** A task that follows another without declaring it waited for it in the run, and does not in the retry. */
  lemma FreeTaskLosesOrder(subs: seq<Sub>, i: nat, t: nat)
    requires SoundSubs(subs) && NoForeignPrefix(subs) && !Cyclic(GraphFrom(SubDecls(subs)))
    requires i < |subs| && 0 < t < |subs[i].tasks| && subs[i].tasks[t].dependsOn == []
    ensures Reach(GraphFrom(Chained(subs[i].tasks)), subs[i].tasks[t].name, subs[i].tasks[t - 1].name)
    ensures !Reach(GraphFrom(Flatten(subs)), TaskName(subs[i], t), TaskName(subs[i], t - 1))
  {
    var tasks := subs[i].tasks;
    InnerOrder(subs, i, t, t - 1);
    hide GraphFrom, Flatten, Cyclic, NoForeignPrefix;
    ChainKeepsNames(tasks);
    GraphAt(tasks, t);
    GraphAt(Chained(tasks), t);
    ReachEdge(GraphFrom(Chained(tasks)), tasks[t].name, tasks[t - 1].name);
  }

  /**
   The retry starts from the tasks as they are declared, so it keeps the order of the run exactly when chaining
   adds nothing to the subpipeline's tasks.
   */
  lemma RetryKeepsOrderIff(subs: seq<Sub>, i: nat)
    requires SoundSubs(subs) && NoForeignPrefix(subs) && !Cyclic(GraphFrom(SubDecls(subs))) && i < |subs|
    ensures RetryKeepsOrder(subs, i) <==> Chained(subs[i].tasks) == subs[i].tasks
  {
    if Chained(subs[i].tasks) == subs[i].tasks {
      forall t, u {:trigger TaskName(subs[i], t), TaskName(subs[i], u)} |
        0 <= t < |subs[i].tasks| && 0 <= u < |subs[i].tasks| &&
        Reach(GraphFrom(subs[i].tasks), subs[i].tasks[t].name, subs[i].tasks[u].name)
        ensures Reach(GraphFrom(Flatten(subs)), TaskName(subs[i], t), TaskName(subs[i], u))
      {
        InnerOrder(subs, i, t, u);
      }
    } else {
      var t :| 0 < t < |subs[i].tasks| && subs[i].tasks[t].dependsOn == [];
      FreeTaskLosesOrder(subs, i, t);
    }
  }

  const TWO_STEPS := Sub("ci", [Decl("build", []), Decl("test", [])], [])

  /** Two steps without dependencies run one after the other, and are retried together. */
  lemma TwoStepsLoseOrder()
    ensures SoundSubs([TWO_STEPS]) && !RetryKeepsOrder([TWO_STEPS], 0)
    ensures Reach(GraphFrom(Chained(TWO_STEPS.tasks)), "test", "build")
    ensures !Reach(GraphFrom(Flatten([TWO_STEPS])), "ci.test", "ci.build")
  {
    var subs := [TWO_STEPS];
    TwoStepsAreSound(subs);
    assert TWO_STEPS.tasks[1].dependsOn == [] && Qualify("ci", "test") == "ci.test";
    assert Qualify("ci", "build") == "ci.build";
    hide SoundSubs, Reach, GraphFrom, Flatten, NoForeignPrefix, Cyclic, Qualify;
    FreeTaskLosesOrder(subs, 0, 1);
    RetryKeepsOrderIff(subs, 0);
  }

  lemma TwoStepsAreSound(subs: seq<Sub>)
    requires subs == [TWO_STEPS]
    ensures SoundSubs(subs) && NoForeignPrefix(subs) && !Cyclic(GraphFrom(SubDecls(subs)))
  {
    assert "build"[0] == 'b' && "test"[0] == 't' && "ci"[0] == 'c' && "ci"[1] == 'i';
    assert Names(TWO_STEPS.tasks)[0] == "build" && Names(TWO_STEPS.tasks)[1] == "test";
    assert DistinctSubs(subs) && '.' !in subs[0].name;
    FreeTasksAreSound(TWO_STEPS);
    FreeTasksAreSound(Sub("", SubDecls(subs), []));
    hide GraphFrom, Cyclic, KnownDependencies, Places, NoForeignPrefix, Prefix, Qualify;
    DotlessHasNoForeignPrefix(subs);
    DotlessNamesAreDistinct(subs);
  }

  /** Every task of a depended-on subpipeline stands in a strictly earlier level. */
  lemma DependedOnIsEarlier(subs: seq<Sub>, k: nat, m: nat, a: nat, b: nat)
    requires SoundSubs(subs) && NoForeignPrefix(subs) && k < |Places(subs)| && m < |Places(subs)|
    requires Places(subs)[m].sub.name in Places(subs)[k].sub.dependsOn
    requires AtLevel(GraphFrom(Flatten(subs)), NameOfPlace(Places(subs)[k]), a)
    requires AtLevel(GraphFrom(Flatten(subs)), NameOfPlace(Places(subs)[m]), b)
    ensures b < a
  {
    hide Places, GraphFrom, Flatten, Intended, AtLevel;
    FlattenAsIntended(subs);
    DirectlyBehind(subs, k, m);
    DependencyIsEarlier(GraphFrom(Flatten(subs)), NameOfPlace(Places(subs)[k]), NameOfPlace(Places(subs)[m]), a, b);
  }

  /** Names without dots also keep qualified names apart. */
  lemma DotlessNamesAreDistinct(subs: seq<Sub>)
    requires DistinctSubs(subs)
    requires forall i :: 0 <= i < |subs| ==> '.' !in subs[i].name && Distinct(Names(subs[i].tasks))
    ensures Distinct(QualifiedNames(subs))
  {
    hide Names, Distinct, Places;
    PlacesAreDistinct(subs);
    forall k, m | 0 <= k < m < |Places(subs)|
      ensures NameOfPlace(Places(subs)[k]) != NameOfPlace(Places(subs)[m])
    {
      var i, t := PlaceInside(subs, k);
      var j, u := PlaceInside(subs, m);
      if NameOfPlace(Places(subs)[k]) == NameOfPlace(Places(subs)[m]) {
        PrefixOfOwn(Places(subs)[k]);
        DotlessPrefix(subs[i].name, subs[j].name, subs[j].tasks[u].name);
        SameTask(subs[i].name, subs[i].tasks[t].name, subs[j].tasks[u].name);
      }
    }
    DistinctFromPlaces(subs);
  }

  lemma SameTask(s: string, t: string, u: string)
    requires Qualify(s, t) == Qualify(s, u)
    ensures t == u
  {
    assert t == Qualify(s, t)[|Prefix(s)|..];
    assert u == Qualify(s, u)[|Prefix(s)|..];
  }

  lemma DistinctFromPlaces(subs: seq<Sub>)
    requires forall k, m :: 0 <= k < m < |Places(subs)| ==> NameOfPlace(Places(subs)[k]) != NameOfPlace(Places(subs)[m])
    ensures Distinct(QualifiedNames(subs))
  {
  }

  lemma {:induction false} PlacesAreDistinct(subs: seq<Sub>)
    requires DistinctSubs(subs)
    requires forall i :: 0 <= i < |subs| ==> Distinct(Names(subs[i].tasks))
    ensures forall k, m :: 0 <= k < m < |Places(subs)| ==>
      Places(subs)[k].sub != Places(subs)[m].sub || Places(subs)[k].task.name != Places(subs)[m].task.name
  {
    if subs != [] {
      var front, last := subs[..|subs| - 1], subs[|subs| - 1];
      PlacesAreDistinct(front);
      forall k, m | 0 <= k < m < |Places(subs)| && m >= |Places(front)|
        ensures Places(subs)[k].sub != Places(subs)[m].sub || Places(subs)[k].task.name != Places(subs)[m].task.name
      {
        if k < |Places(front)| {
          var i, t := PlaceInside(front, k);
          assert front[i] == subs[i];
        } else {
          DistinctDeclarations(last.tasks);
        }
      }
    }
  }

  /** A dotted subpipeline name makes a pipeline that can be levelled cyclic once it is flattened. */
  lemma DottedNameMakesCycle()
    ensures var subs := [Sub("a.b", [Decl("t", [])], []), Sub("a", [Decl("u", [])], ["a.b"])];
      !Cyclic(GraphFrom(SubDecls(subs))) && Cyclic(GraphFrom(Flatten(subs)))
  {
    var first, second := Sub("a.b", [Decl("t", [])], []), Sub("a", [Decl("u", [])], ["a.b"]);
    var subs := [first, second];
    DottedInherits(first, second);
    DottedCanBeLevelled(SubDecls(subs));
  }

  lemma DottedCanBeLevelled(decls: seq<Decl<string>>)
    requires |decls| == 2 && decls[0] == Decl("a.b", []) && decls[1] == Decl("a", ["a.b"])
    ensures !Cyclic(GraphFrom(decls))
  {
    assert |"a"| != |"a.b"|;
    assert Names(decls)[0] == "a.b" && Names(decls)[1] == "a";
    GraphFromIsGraphOf(decls);
    var g := GraphFrom(decls);
    assert g["a.b"] == [] && g["a"] == ["a.b"] by {
      assert decls[0].name == "a.b" && decls[1].name == "a";
    }
    var rank: map<string, nat> := map["a.b" := 0, "a" := 1];
    forall n, d | n in g && d in g[n]
      ensures d in g && rank[d] < rank[n]
    {
      assert n in Names(decls);
      assert n == "a" && d == "a.b";
    }
    RankedIsAcyclic(g, rank);
  }

  lemma DottedInherits(first: Sub, second: Sub)
    requires first == Sub("a.b", [Decl("t", [])], []) && second == Sub("a", [Decl("u", [])], ["a.b"])
    ensures Cyclic(GraphFrom(Flatten([first, second])))
  {
    var subs := [first, second];
    assert subs[..1] == [first] && [first][..0] == [];
    assert Places([first]) == [Place(first, first.tasks[0])];
    assert Places(subs) == [Place(first, first.tasks[0]), Place(second, second.tasks[0])];
    var flat := Flatten(subs);
    assert flat[0].name == "a.b.t" && flat[1].name == "a.u";
    assert TaskNames(first)[0] == "a.b.t";
    assert second.dependsOn[..0] == [];
    assert |"a"| != |"a.b"|;
    assert TasksOf([first], "a.b") == TaskNames(first);
    assert TasksOf(subs, "a.b") == TaskNames(first);
    assert TasksBehind(subs, second.dependsOn) == [] + TaskNames(first);
    assert Prefix("a") <= "a.b.t";
    var before := Inherited([first], subs, "a.b.t");
    assert Inherited(subs, subs, "a.b.t") == before + TaskNames(first);
    assert (before + TaskNames(first))[|before|] == "a.b.t";
    assert "a.b.t" in flat[0].dependsOn;
    FlatNames(flat);
    GraphFromIsGraphOf(flat);
    ReachEdge(GraphFrom(flat), "a.b.t", "a.b.t");
  }

  lemma FlatNames(flat: seq<Decl<string>>)
    requires |flat| == 2 && flat[0].name == "a.b.t" && flat[1].name == "a.u"
    ensures Distinct(Names(flat))
  {
  }
}
