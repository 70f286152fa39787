/**
 Whether an adapter's comparison reaches its integrity check: a worklist over the in-class call
 graph of every readable class in the resolution order.
 */
module RuntimeRecheck {
  /** A method name: the four that an entry point can have, the check's, or any other. */
  datatype Name =
    | Compare | PrivateCompare | PrivateMatch | PrivateRunComparison
    | CheckRuntimeIntegrity
    | Other(text: string)

  /** A call written in a method: what is called, and whether it is called on `self`. */
  datatype Call = Call(name: Name, onSelf: bool)

  type Methods = map<Name, set<Call>>

  /** A class as its source shows it: each method with the calls written in it. */
  datatype Class = Unreadable | Readable(methods: Methods)

  /** Each method with the names it calls, whatever it calls them on. */
  type Graph = map<Name, set<Name>>

  function Names(calls: set<Call>): set<Name> {
    set c <- calls :: c.name
  }

  function GraphOf(methods: Methods): (g: Graph)
    ensures g.Keys == methods.Keys && forall n :: n in g ==> g[n] == Names(methods[n])
  {
    map n | n in methods :: Names(methods[n])
  }

  const CHECK: Name := CheckRuntimeIntegrity

  predicate IsEntry(name: Name) {
    name.Compare? || name.PrivateCompare? || name.PrivateMatch? || name.PrivateRunComparison?
  }

  function EntryPoints(): (r: seq<Name>)
    ensures forall n :: n in r <==> IsEntry(n)
  {
    [Compare, PrivateCompare, PrivateMatch, PrivateRunComparison]
  }

  /** A chain of in-class calls from an entry point. */
  predicate IsPath(graph: Graph, path: seq<Name>) {
    && path != [] && IsEntry(path[0])
    && (forall i :: 0 <= i < |path| ==> path[i] in graph)
    && (forall i :: 0 < i < |path| ==> path[i] in graph[path[i - 1]])
  }

  ghost predicate Reaches(graph: Graph, name: Name) {
    exists path :: IsPath(graph, path) && path[|path| - 1] == name
  }

  /** Some method that calls the check is reachable. */
  ghost predicate FindsCheck(graph: Graph) {
    exists name :: Reaches(graph, name) && name in graph && CHECK in graph[name]
  }

  ghost predicate Rechecks(c: Class) {
    c.Readable? && FindsCheck(GraphOf(c.methods))
  }

  ghost predicate SomeClassRechecks(mro: seq<Class>) {
    exists i :: 0 <= i < |mro| && Rechecks(mro[i])
  }

  lemma {:induction false} EntryReaches(graph: Graph, name: Name)
    requires IsEntry(name) && name in graph
    ensures Reaches(graph, name)
  {
    assert IsPath(graph, [name]);
  }

  lemma {:induction false} CallReaches(graph: Graph, caller: Name, name: Name)
    requires Reaches(graph, caller) && caller in graph && name in graph[caller] && name in graph
    ensures Reaches(graph, name)
  {
    var path :| IsPath(graph, path) && path[|path| - 1] == caller;
    var longer := path + [name];
    assert IsPath(graph, longer);
  }

  /** A set that holds the entry points and is closed under in-class calls holds everything reachable. */
  lemma {:induction false} ClosedHoldsPath(graph: Graph, seen: set<Name>, path: seq<Name>, i: nat)
    requires IsPath(graph, path) && i < |path|
    requires forall n :: IsEntry(n) && n in graph ==> n in seen
    requires forall n, m :: n in seen && n in graph && m in graph[n] && m in graph ==> m in seen
    ensures path[i] in seen
  {
    if i > 0 {
      ClosedHoldsPath(graph, seen, path, i - 1);
    }
  }

  /** A sequence of a set's elements, in whatever order. */
  method Listed(names: set<Name>) returns (list: seq<Name>)
    ensures forall n :: n in list <==> n in names
  {
    list := [];
    var rest := names;
    while rest != {}
      invariant rest <= names && forall n :: n in list <==> n in names && n !in rest
      decreases |rest|
    {
      var n :| n in rest;
      rest := rest - {n};
      list := list + [n];
    }
  }

  /** Every name found so far is reachable, and every call out of a seen method is accounted for. */
  ghost predicate Explored(graph: Graph, seen: set<Name>, frontier: seq<Name>) {
    && seen <= graph.Keys
    && (forall n :: n in frontier ==> n in graph && Reaches(graph, n))
    && (forall n :: n in seen ==> CHECK !in graph[n])
    && (forall n :: IsEntry(n) && n in graph ==> n in seen || n in frontier)
    && (forall n, m :: n in seen && m in graph[n] && m in graph ==> m in seen || m in frontier)
  }

  /** A frontier entry that was met before changes nothing. */
  lemma {:induction false} Skipped(graph: Graph, seen: set<Name>, rest: seq<Name>, name: Name)
    requires Explored(graph, seen, rest + [name]) && name in seen
    ensures Explored(graph, seen, rest)
  {
  }

  /** A new name that does not call the check moves to the seen ones, and what it calls joins the frontier. */
  lemma {:induction false} Visited(graph: Graph, seen: set<Name>, rest: seq<Name>, name: Name,
                                   next: seq<Name>)
    requires Explored(graph, seen, rest + [name]) && name !in seen
    requires name in graph && Reaches(graph, name) && CHECK !in graph[name]
    requires forall n :: n in next <==> n in graph[name] && n in graph && n !in seen + {name}
    ensures Explored(graph, seen + {name}, rest + next)
  {
    var now, frontier := seen + {name}, rest + next;
    assert forall n :: n in rest + [name] ==> n in now || n in frontier;
    forall n | n in frontier ensures n in graph && Reaches(graph, n) {
      if n in rest {
        assert n in rest + [name];
      } else {
        CallReaches(graph, name, n);
      }
    }
    forall n | IsEntry(n) && n in graph ensures n in now || n in frontier {
      assert n in seen || n in rest + [name] by { assert Explored(graph, seen, rest + [name]); }
    }
    forall n, m | n in now && m in graph[n] && m in graph ensures m in now || m in frontier {
      if n == name {
        assert m in now || m in next;
      } else {
        assert m in seen || m in rest + [name];
      }
    }
  }

  /** With nothing left to look at, nothing reachable calls the check. */
  lemma {:induction false} Exhausted(graph: Graph, seen: set<Name>)
    requires Explored(graph, seen, [])
    ensures !FindsCheck(graph)
  {
    forall name | Reaches(graph, name) ensures name in seen {
      var path :| IsPath(graph, path) && path[|path| - 1] == name;
      ClosedHoldsPath(graph, seen, path, |path| - 1);
    }
  }

  /** `_called_names`: the receiver of a call is dropped. */
  method CalledNames(calls: set<Call>) returns (names: set<Name>)
    ensures names == Names(calls)
  {
    names := {};
    var rest := calls;
    while rest != {}
      invariant rest <= calls && names == Names(calls - rest)
      decreases |rest|
    {
      var c :| c in rest;
      assert calls - (rest - {c}) == (calls - rest) + {c};
      rest := rest - {c};
      names := names + {c.name};
    }
    assert calls - {} == calls;
  }

  /** The loop over one class. A name may stand in the frontier more than once. */
  method SearchClass(methods: Methods) returns (found: bool)
    ensures found <==> Rechecks(Readable(methods))
  {
    ghost var graph := GraphOf(methods);
    var seen: set<Name> := {};
    var frontier := Keep(EntryPoints(), methods.Keys);
    forall n | n in frontier ensures Reaches(graph, n) { EntryReaches(graph, n); }
    while frontier != []
      invariant Explored(graph, seen, frontier)
      decreases methods.Keys - seen, |frontier|
    {
      var name := frontier[|frontier| - 1];
      var rest := frontier[..|frontier| - 1];
      assert frontier == rest + [name];
      assert name in graph && Reaches(graph, name);
      if name in seen {
        Skipped(graph, seen, rest, name);
        frontier := rest;
      } else {
        var called := CalledNames(methods[name]);
        if CHECK in called { return true; }
        var next := Listed(called * (methods.Keys - (seen + {name})));
        Visited(graph, seen, rest, name, next);
        seen, frontier := seen + {name}, rest + next;
      }
    }
    Exhausted(graph, seen);
    found := false;
  }

  function Keep(names: seq<Name>, wanted: set<Name>): (r: seq<Name>)
    ensures forall n :: n in r <==> n in names && n in wanted
  {
    if names == [] then [] else (if names[0] in wanted then [names[0]] else []) + Keep(names[1..], wanted)
  }

  /** `_class_rechecks`: the first class with a reachable check decides; an unreadable class is passed over. */
  method ClassRechecks(mro: seq<Class>) returns (found: bool)
    ensures found <==> SomeClassRechecks(mro)
  {
    for i := 0 to |mro|
      invariant forall k :: 0 <= k < i ==> !Rechecks(mro[k])
    {
      match mro[i]
      case Unreadable =>
      case Readable(methods) =>
        var here := SearchClass(methods);
        if here { return true; }
    }
    found := false;
  }

  /** A class without source answers nothing itself: the answer is that of the classes after it. */
  lemma {:induction false} UnreadableDefersToItsBases(bases: seq<Class>)
    ensures SomeClassRechecks([Unreadable] + bases) <==> SomeClassRechecks(bases)
  {
    var mro := [Unreadable] + bases;
    if i :| 0 <= i < |bases| && Rechecks(bases[i]) {
      assert mro[i + 1] == bases[i];
    }
    if i :| 0 <= i < |mro| && Rechecks(mro[i]) {
      assert mro[i] == bases[i - 1];
    }
  }

  /** So an adapter without source of its own can still get a positive answer, from a base it may override. */
  lemma {:induction false} UnreadableCanAnswerYes()
    ensures SomeClassRechecks([Unreadable, Readable(map[Compare := {Call(CHECK, true)}])])
  {
    var base := Readable(map[Compare := {Call(CHECK, true)}]);
    assert Call(CHECK, true) in base.methods[Compare];
    assert IsPath(GraphOf(base.methods), [Compare]);
    assert Reaches(GraphOf(base.methods), Compare);
    assert Rechecks([Unreadable, base][1]);
  }
}
