/**
 What a positive answer of the recheck search means for the comparison that an instance makes: the
 search follows names inside one class at a time, while a call on `self` goes to the first class of the
 resolution order that defines the name.
 */
module RuntimeDispatch {
  import opened RuntimeRecheck

  function Read(mro: seq<Methods>): (r: seq<Class>)
    ensures |r| == |mro| && forall i :: 0 <= i < |r| ==> r[i] == Readable(mro[i])
  {
    seq(|mro|, i requires 0 <= i < |mro| => Readable(mro[i]))
  }

  /** The calls of the method that a call on `self` goes to. */
  function Body(mro: seq<Methods>, name: Name): set<Call> {
    if mro == [] then {} else if name in mro[0] then mro[0][name] else Body(mro[1..], name)
  }

  predicate SelfCall(mro: seq<Methods>, caller: Name, name: Name) {
    Call(name, true) in Body(mro, caller)
  }

  predicate IsDispatched(mro: seq<Methods>, path: seq<Name>) {
    path != [] && forall k :: 0 < k < |path| ==> SelfCall(mro, path[k - 1], path[k])
  }

  ghost predicate Leads(mro: seq<Methods>, start: Name, name: Name) {
    exists path :: IsDispatched(mro, path) && path[0] == start && path[|path| - 1] == name
  }

  /** A chain of calls on `self`, from this method on, ends in a call of the check. */
  ghost predicate ChecksFrom(mro: seq<Methods>, start: Name) {
    exists name :: Leads(mro, start, name) && SelfCall(mro, name, CHECK)
  }

  ghost predicate ComparisonRechecks(mro: seq<Methods>) {
    ChecksFrom(mro, Compare)
  }

  // ------------------------------------------------- what is known of a class

  /**
   Which methods a class defines, which of those call nothing that matters (an abstract one, for
   instance), and which calls on `self` the others are known to make.
   */
  datatype Shape = Shape(defined: set<Name>, silent: set<Name>, promised: map<Name, set<Name>>)

  function Speaking(s: Shape): set<Name> { s.defined - s.silent }

  function Promise(s: Shape, name: Name): set<Name> {
    if name in Speaking(s) && name in s.promised then s.promised[name] else {}
  }

  function OnSelf(names: set<Name>): (calls: set<Call>)
    ensures forall n, self :: Call(n, self) in calls <==> self && n in names
  {
    set n <- names :: Call(n, true)
  }

  /** A call the search takes notice of inside this class. */
  predicate Matters(methods: Methods, c: Call) { c.name in methods || c.name == CHECK }

  predicate FitsClass(methods: Methods, s: Shape) {
    && methods.Keys == s.defined
    && (forall n, c :: n in methods && n in s.silent && c in methods[n] ==> !Matters(methods, c))
    && (forall n :: n in methods ==> OnSelf(Promise(s, n)) <= methods[n])
  }

  ghost predicate Fits(mro: seq<Methods>, shapes: seq<Shape>) {
    |mro| == |shapes| && forall i :: 0 <= i < |mro| ==> FitsClass(mro[i], shapes[i])
  }

  /** What a method calls of its own class, and the check, it calls on `self` too; `compare` itself is exempt. */
  predicate CallsOnSelf(methods: Methods) {
    forall n, c :: n in methods && c in methods[n] && Matters(methods, c) && c.name != Compare ==>
      Call(c.name, true) in methods[n]
  }

  ghost predicate AllOnSelf(mro: seq<Methods>) {
    forall i :: 0 <= i < |mro| ==> CallsOnSelf(mro[i])
  }

  /** A class that keeps its promises and makes these calls besides. */
  function ClassWith(s: Shape, extra: map<Name, set<Call>>): (methods: Methods)
    ensures methods.Keys == s.defined
    ensures forall n :: n in methods ==> methods[n] == OnSelf(Promise(s, n)) + if n in extra then extra[n] else {}
  {
    map n | n in s.defined :: OnSelf(Promise(s, n)) + if n in extra then extra[n] else {}
  }

  /** Class `i` makes the extra calls, and no other does; with no class `i`, nobody does. */
  function With(shapes: seq<Shape>, i: int, extra: map<Name, set<Call>>): (mro: seq<Methods>)
    ensures |mro| == |shapes|
  {
    if shapes == [] then [] else
      [ClassWith(shapes[0], if i == 0 then extra else map[])] + With(shapes[1..], i - 1, extra)
  }

  lemma {:induction false} WithAt(shapes: seq<Shape>, i: int, extra: map<Name, set<Call>>, c: nat)
    requires c < |shapes|
    ensures With(shapes, i, extra)[c] == ClassWith(shapes[c], if c == i then extra else map[])
  {
    if c > 0 { WithAt(shapes[1..], i - 1, extra, c - 1); }
  }

  function Least(shapes: seq<Shape>): seq<Methods> { With(shapes, -1, map[]) }

  /** The check is promised to be reached, or every entry point that speaks is, and no override on the way loses it. */
  ghost predicate Trustworthy(shapes: seq<Shape>) {
    || ChecksFrom(Least(shapes), Compare)
    || forall i, entry :: 0 <= i < |shapes| && IsEntry(entry) && entry in Speaking(shapes[i]) ==>
         Guarded(shapes, i, entry)
  }

  ghost predicate Guarded(shapes: seq<Shape>, i: nat, entry: Name)
    requires i < |shapes|
  {
    Leads(Least(shapes), Compare, entry) && NothingLost(shapes, i)
  }

  /** Whatever an earlier class overrides of class `i`, the override is promised to reach the check. */
  ghost predicate NothingLost(shapes: seq<Shape>, i: nat)
    requires i < |shapes|
  {
    forall j, helper :: 0 <= j < i && helper in Speaking(shapes[i]) ==>
      helper in shapes[j].defined && helper != CHECK ==> ChecksFrom(Least(shapes), helper)
  }

  // ------------------------------------------------------------------ chains

  lemma {:induction false} LeadsToItself(mro: seq<Methods>, name: Name)
    ensures Leads(mro, name, name)
  {
    assert IsDispatched(mro, [name]);
  }

  lemma {:induction false} LeadsOn(mro: seq<Methods>, start: Name, caller: Name, name: Name)
    requires Leads(mro, start, caller) && SelfCall(mro, caller, name)
    ensures Leads(mro, start, name)
  {
    var path :| IsDispatched(mro, path) && path[0] == start && path[|path| - 1] == caller;
    var longer := path + [name];
    assert IsDispatched(mro, longer);
  }

  /** Calls kept are chains kept. */
  lemma {:induction false} LeadsAlong(mro: seq<Methods>, more: seq<Methods>, start: Name, path: seq<Name>, k: nat)
    requires IsDispatched(mro, path) && path[0] == start && k < |path|
    requires forall a, b :: SelfCall(mro, a, b) ==> SelfCall(more, a, b)
    ensures Leads(more, start, path[k])
  {
    if k == 0 {
      LeadsToItself(more, start);
    } else {
      LeadsAlong(mro, more, start, path, k - 1);
      LeadsOn(more, start, path[k - 1], path[k]);
    }
  }

  lemma {:induction false} ChainsKept(mro: seq<Methods>, more: seq<Methods>, start: Name, name: Name)
    requires Leads(mro, start, name)
    requires forall a, b :: SelfCall(mro, a, b) ==> SelfCall(more, a, b)
    ensures Leads(more, start, name)
  {
    var path :| IsDispatched(mro, path) && path[0] == start && path[|path| - 1] == name;
    LeadsAlong(mro, more, start, path, |path| - 1);
  }

  /** Chains joined end to end. */
  lemma {:induction false} LeadsFurther(mro: seq<Methods>, start: Name, path: seq<Name>, k: nat)
    requires IsDispatched(mro, path) && k < |path| && Leads(mro, start, path[0])
    ensures Leads(mro, start, path[k])
  {
    if k > 0 {
      LeadsFurther(mro, start, path, k - 1);
      LeadsOn(mro, start, path[k - 1], path[k]);
    }
  }

  lemma {:induction false} ChecksFurther(mro: seq<Methods>, start: Name, via: Name)
    requires Leads(mro, start, via) && ChecksFrom(mro, via)
    ensures ChecksFrom(mro, start)
  {
    var name :| Leads(mro, via, name) && SelfCall(mro, name, CHECK);
    var path :| IsDispatched(mro, path) && path[0] == via && path[|path| - 1] == name;
    LeadsFurther(mro, start, path, |path| - 1);
  }

  /** A set of names that holds the start, is closed under calls on `self` and never calls the check. */
  lemma {:induction false} StaysInside(mro: seq<Methods>, inside: iset<Name>, path: seq<Name>, k: nat)
    requires IsDispatched(mro, path) && path[0] in inside && k < |path|
    requires forall a, b :: a in inside && SelfCall(mro, a, b) ==> b in inside
    ensures path[k] in inside
  {
    if k > 0 { StaysInside(mro, inside, path, k - 1); }
  }

  lemma {:induction false} NeverChecks(mro: seq<Methods>, inside: iset<Name>, start: Name)
    requires start in inside && forall a :: a in inside ==> !SelfCall(mro, a, CHECK)
    requires forall a, b :: a in inside && SelfCall(mro, a, b) ==> b in inside
    ensures !ChecksFrom(mro, start)
  {
    forall name | Leads(mro, start, name) ensures !SelfCall(mro, name, CHECK) {
      var path :| IsDispatched(mro, path) && path[0] == start && path[|path| - 1] == name;
      StaysInside(mro, inside, path, |path| - 1);
    }
  }

  // -------------------------------------------------- a trustworthy answer

  /** Every promised call is made by the method that a call on `self` goes to. */
  lemma {:induction false} PromisesAreKept(mro: seq<Methods>, shapes: seq<Shape>, name: Name)
    requires Fits(mro, shapes)
    ensures Body(Least(shapes), name) <= Body(mro, name)
  {
    if mro != [] {
      assert FitsClass(mro[0], shapes[0]);
      if name !in mro[0] {
        LeastTail(shapes);
        assert forall i :: 0 <= i < |mro| - 1 ==> FitsClass(mro[1..][i], shapes[1..][i]);
        PromisesAreKept(mro[1..], shapes[1..], name);
      }
    }
  }

  lemma {:induction false} PromisedCheck(mro: seq<Methods>, shapes: seq<Shape>, start: Name)
    requires Fits(mro, shapes) && ChecksFrom(Least(shapes), start)
    ensures ChecksFrom(mro, start)
  {
    forall a, b | SelfCall(Least(shapes), a, b) ensures SelfCall(mro, a, b) { PromisesAreKept(mro, shapes, a); }
    var name :| Leads(Least(shapes), start, name) && SelfCall(Least(shapes), name, CHECK);
    ChainsKept(Least(shapes), mro, start, name);
  }

  lemma {:induction false} PromisedChain(mro: seq<Methods>, shapes: seq<Shape>, start: Name, name: Name)
    requires Fits(mro, shapes) && Leads(Least(shapes), start, name)
    ensures Leads(mro, start, name)
  {
    forall a, b | SelfCall(Least(shapes), a, b) ensures SelfCall(mro, a, b) { PromisesAreKept(mro, shapes, a); }
    ChainsKept(Least(shapes), mro, start, name);
  }

  lemma {:induction false} BodyOfFirst(mro: seq<Methods>, name: Name, i: nat)
    requires i < |mro| && name in mro[i] && forall j :: 0 <= j < i ==> name !in mro[j]
    ensures Body(mro, name) == mro[i][name]
  {
    if i > 0 {
      assert mro[1..][i - 1] == mro[i] && name !in mro[0];
      assert forall j :: 0 <= j < i - 1 ==> mro[1..][j] == mro[j + 1];
      BodyOfFirst(mro[1..], name, i - 1);
    }
  }

  /** Before the first method of a chain that calls the check, nothing on the chain is the check. */
  lemma {:induction false} FirstCaller(graph: Graph, path: seq<Name>) returns (k: nat)
    requires IsPath(graph, path) && CHECK in graph[path[|path| - 1]]
    ensures k < |path| && CHECK in graph[path[k]]
    ensures forall m :: 0 <= m <= k ==> path[m] != CHECK
  {
    k := 0;
    while CHECK !in graph[path[k]]
      invariant k < |path| && forall m :: 0 <= m < k ==> CHECK !in graph[path[m]]
      decreases |path| - k
    {
      k := k + 1;
    }
    forall m | 0 <= m <= k ensures path[m] != CHECK {
      if m > 0 { assert path[m] in graph[path[m - 1]] && CHECK !in graph[path[m - 1]]; }
    }
  }

  /** A method of class `i` that calls a name the search follows is no silent one, and calls it on `self`. */
  lemma {:induction false} CallFollowed(methods: Methods, s: Shape, caller: Name, name: Name)
    requires FitsClass(methods, s) && CallsOnSelf(methods)
    requires caller in methods && name in GraphOf(methods)[caller] && (name in methods || name == CHECK)
    ensures caller in Speaking(s)
    ensures name != Compare ==> Call(name, true) in methods[caller]
  {
    var c :| c in methods[caller] && c.name == name;
    assert Matters(methods, c);
  }

  /**
   One link of a chain the search followed in class `i`: dispatched to that class it goes on, and
   dispatched to an override it is promised to reach the check.
   */
  lemma {:induction false} LinkDispatched(mro: seq<Methods>, shapes: seq<Shape>, i: nat, caller: Name, name: Name)
    requires Fits(mro, shapes) && AllOnSelf(mro) && i < |mro| && NothingLost(shapes, i)
    requires caller in mro[i] && caller != CHECK
    requires name in GraphOf(mro[i])[caller] && (name in mro[i] || name == CHECK)
    requires Leads(mro, Compare, caller)
    ensures ComparisonRechecks(mro) || Leads(mro, Compare, name)
    ensures name == CHECK ==> ComparisonRechecks(mro)
  {
    assert FitsClass(mro[i], shapes[i]) && CallsOnSelf(mro[i]);
    CallFollowed(mro[i], shapes[i], caller, name);
    if j :| 0 <= j < i && caller in mro[j] {
      assert FitsClass(mro[j], shapes[j]) && caller in shapes[j].defined;
      PromisedCheck(mro, shapes, caller);
      ChecksFurther(mro, Compare, caller);
    } else {
      BodyOfFirst(mro, caller, i);
      if name == Compare {
        LeadsToItself(mro, Compare);
      } else {
        assert SelfCall(mro, caller, name);
        LeadsOn(mro, Compare, caller, name);
      }
    }
  }

  lemma {:induction false} ChainDispatched(mro: seq<Methods>, shapes: seq<Shape>, i: nat, path: seq<Name>, k: nat)
    requires Fits(mro, shapes) && AllOnSelf(mro) && i < |mro| && NothingLost(shapes, i)
    requires IsPath(GraphOf(mro[i]), path) && k < |path| && Leads(mro, Compare, path[0])
    requires forall m :: 0 <= m <= k ==> path[m] != CHECK
    ensures ComparisonRechecks(mro) || Leads(mro, Compare, path[k])
  {
    if k > 0 {
      ChainDispatched(mro, shapes, i, path, k - 1);
      if !ComparisonRechecks(mro) {
        LinkDispatched(mro, shapes, i, path[k - 1], path[k]);
      }
    }
  }

  lemma {:induction false} EntrySpeaks(mro: seq<Methods>, shapes: seq<Shape>, i: nat, path: seq<Name>)
    requires Fits(mro, shapes) && i < |mro|
    requires IsPath(GraphOf(mro[i]), path) && CHECK in GraphOf(mro[i])[path[|path| - 1]]
    ensures path[0] in Speaking(shapes[i])
  {
    assert FitsClass(mro[i], shapes[i]);
    var next := if |path| > 1 then path[1] else CHECK;
    var c :| c in mro[i][path[0]] && c.name == next;
    assert Matters(mro[i], c);
  }

  lemma {:induction false} TrustworthyAnswer(mro: seq<Methods>, shapes: seq<Shape>)
    requires Fits(mro, shapes) && AllOnSelf(mro) && Trustworthy(shapes) && SomeClassRechecks(Read(mro))
    ensures ComparisonRechecks(mro)
  {
    if ChecksFrom(Least(shapes), Compare) {
      PromisedCheck(mro, shapes, Compare);
    } else {
      var i, path := AnsweringPath(mro);
      EntrySpeaks(mro, shapes, i, path);
      EntryReached(shapes, i, path[0]);
      PromisedChain(mro, shapes, Compare, path[0]);
      AnswerDispatched(mro, shapes, i, path);
    }
  }

  lemma {:induction false} EntryReached(shapes: seq<Shape>, i: nat, entry: Name)
    requires Trustworthy(shapes) && !ChecksFrom(Least(shapes), Compare)
    requires i < |shapes| && IsEntry(entry) && entry in Speaking(shapes[i])
    ensures Leads(Least(shapes), Compare, entry) && NothingLost(shapes, i)
  {
    assert Guarded(shapes, i, entry);
  }

  lemma {:induction false} AnswerDispatched(mro: seq<Methods>, shapes: seq<Shape>, i: nat, path: seq<Name>)
    requires Fits(mro, shapes) && AllOnSelf(mro) && i < |mro| && NothingLost(shapes, i)
    requires IsPath(GraphOf(mro[i]), path) && CHECK in GraphOf(mro[i])[path[|path| - 1]]
    requires Leads(mro, Compare, path[0])
    ensures ComparisonRechecks(mro)
  {
    var k := FirstCaller(GraphOf(mro[i]), path);
    ChainDispatched(mro, shapes, i, path, k);
    if !ComparisonRechecks(mro) { LinkDispatched(mro, shapes, i, path[k], CHECK); }
  }

  lemma {:induction false} AnsweringPath(mro: seq<Methods>) returns (i: nat, path: seq<Name>)
    requires SomeClassRechecks(Read(mro))
    ensures i < |mro| && IsPath(GraphOf(mro[i]), path) && CHECK in GraphOf(mro[i])[path[|path| - 1]]
  {
    i :| 0 <= i < |mro| && Rechecks(Read(mro)[i]);
    var graph := GraphOf(mro[i]);
    var name :| Reaches(graph, name) && name in graph && CHECK in graph[name];
    path :| IsPath(graph, path) && path[|path| - 1] == name;
  }

  // ------------------------------------------------- an answer that misleads

  /** With nobody to make them, the extra calls are as good as none. */
  lemma {:induction false} NobodyMakes(shapes: seq<Shape>, i: int, extra: map<Name, set<Call>>, j: int)
    requires i < 0 && j < 0
    ensures With(shapes, i, extra) == With(shapes, j, map[])
  {
    if shapes != [] { NobodyMakes(shapes[1..], i - 1, extra, j - 1); }
  }

  lemma {:induction false} LeastTail(shapes: seq<Shape>)
    requires shapes != []
    ensures Least(shapes)[1..] == Least(shapes[1..])
  {
    NobodyMakes(shapes[1..], -2, map[], -1);
  }

  /** Class `i`'s extra calls can show only in the bodies they are of. */
  lemma {:induction false} BodyWith(shapes: seq<Shape>, i: int, extra: map<Name, set<Call>>, name: Name)
    ensures Body(With(shapes, i, extra), name) <= Body(Least(shapes), name) + if name in extra then extra[name] else {}
  {
    if shapes != [] && name !in shapes[0].defined {
      LeastTail(shapes);
      BodyWith(shapes[1..], i - 1, extra, name);
    }
  }

  /** They do not show in a body that an earlier class defines. */
  lemma {:induction false} BodyUntouched(shapes: seq<Shape>, i: int, extra: map<Name, set<Call>>, name: Name, j: nat)
    requires j < |shapes| && j < i && name in shapes[j].defined
    ensures Body(With(shapes, i, extra), name) == Body(Least(shapes), name)
  {
    if name !in shapes[0].defined {
      LeastTail(shapes);
      assert shapes[1..][j - 1] == shapes[j];
      BodyUntouched(shapes[1..], i - 1, extra, name, j - 1);
    }
  }

  lemma {:induction false} WithFits(shapes: seq<Shape>, i: nat, extra: map<Name, set<Call>>)
    requires i < |shapes| && extra.Keys <= Speaking(shapes[i])
    ensures Fits(With(shapes, i, extra), shapes)
    ensures (forall n, c :: n in extra && c in extra[n] ==> c.onSelf) ==> AllOnSelf(With(shapes, i, extra))
  {
    forall c | 0 <= c < |shapes|
      ensures FitsClass(With(shapes, i, extra)[c], shapes[c])
      ensures (forall n, c :: n in extra && c in extra[n] ==> c.onSelf) ==> CallsOnSelf(With(shapes, i, extra)[c])
    {
      WithAt(shapes, i, extra, c);
    }
  }

  lemma {:induction false} AnswersAt(mro: seq<Methods>, i: nat, path: seq<Name>)
    requires i < |mro| && IsPath(GraphOf(mro[i]), path) && CHECK in GraphOf(mro[i])[path[|path| - 1]]
    ensures SomeClassRechecks(Read(mro))
  {
    assert Reaches(GraphOf(mro[i]), path[|path| - 1]);
    assert Rechecks(Read(mro)[i]);
  }

  ghost function Reached(mro: seq<Methods>, start: Name): iset<Name> {
    iset n | Leads(mro, start, n)
  }

  lemma {:induction false} ReachedIsClosed(mro: seq<Methods>, start: Name)
    requires !ChecksFrom(mro, start)
    ensures start in Reached(mro, start)
    ensures forall a :: a in Reached(mro, start) ==> !SelfCall(mro, a, CHECK)
    ensures forall a, b :: a in Reached(mro, start) && SelfCall(mro, a, b) ==> b in Reached(mro, start)
  {
    LeadsToItself(mro, start);
    forall a, b | a in Reached(mro, start) && SelfCall(mro, a, b) ensures b in Reached(mro, start) {
      LeadsOn(mro, start, a, b);
    }
  }

  /** A method that calls the check without the comparison ever getting there. */
  lemma {:induction false} LoneCheckMisleads(shapes: seq<Shape>, i: nat, entry: Name, call: Call)
    returns (mro: seq<Methods>)
    requires i < |shapes| && IsEntry(entry) && entry in Speaking(shapes[i]) && call.name == CHECK
    requires !ChecksFrom(Least(shapes), Compare)
    requires
      || !call.onSelf
      || !Leads(Least(shapes), Compare, entry)
      || exists j :: 0 <= j < i && entry in shapes[j].defined
    ensures mro == With(shapes, i, map[entry := {call}]) && Fits(mro, shapes) && (call.onSelf ==> AllOnSelf(mro))
    ensures SomeClassRechecks(Read(mro)) && !ComparisonRechecks(mro)
  {
    var extra := map[entry := {call}];
    mro := With(shapes, i, extra);
    WithFits(shapes, i, extra);
    WithAt(shapes, i, extra, i);
    CallAnswers(mro, i, entry, call);
    LoneCheckIsMissed(shapes, i, entry, call);
  }

  lemma {:induction false} CallAnswers(mro: seq<Methods>, i: nat, entry: Name, call: Call)
    requires i < |mro| && IsEntry(entry) && entry in mro[i] && call in mro[i][entry] && call.name == CHECK
    ensures SomeClassRechecks(Read(mro))
  {
    assert CHECK in GraphOf(mro[i])[entry] && IsPath(GraphOf(mro[i]), [entry]);
    AnswersAt(mro, i, [entry]);
  }

  lemma {:induction false} LoneCheckIsMissed(shapes: seq<Shape>, i: nat, entry: Name, call: Call)
    requires i < |shapes| && call.name == CHECK && !ChecksFrom(Least(shapes), Compare)
    requires
      || !call.onSelf
      || !Leads(Least(shapes), Compare, entry)
      || exists j :: 0 <= j < i && entry in shapes[j].defined
    ensures !ComparisonRechecks(With(shapes, i, map[entry := {call}]))
  {
    var extra := map[entry := {call}];
    var mro, least := With(shapes, i, extra), Least(shapes);
    ReachedIsClosed(least, Compare);
    forall a, b | a in Reached(least, Compare) && SelfCall(mro, a, b) ensures SelfCall(least, a, b) {
      BodyWith(shapes, i, extra, a);
      if j :| 0 <= j < i && entry in shapes[j].defined { BodyUntouched(shapes, i, extra, entry, j); }
    }
    NeverChecks(mro, Reached(least, Compare), Compare);
  }

  /** The entry point calls the helper, and the helper the check. */
  function HelperCalls(entry: Name, helper: Name): (calls: map<Name, set<Call>>)
    requires entry != helper
    ensures calls.Keys == {entry, helper}
    ensures calls[entry] == {Call(helper, true)} && calls[helper] == {Call(CHECK, true)}
    ensures forall n, c :: n in calls && c in calls[n] ==> c.onSelf
  {
    map[entry := {Call(helper, true)}, helper := {Call(CHECK, true)}]
  }

  /** A helper that calls the check, overridden by a class whose own helper is not known to. */
  lemma {:induction false} LostHelperMisleads(shapes: seq<Shape>, i: nat, entry: Name, j: nat, helper: Name)
    returns (mro: seq<Methods>)
    requires j < i < |shapes| && IsEntry(entry) && entry in Speaking(shapes[i])
    requires helper in Speaking(shapes[i]) && helper in shapes[j].defined && helper != CHECK && helper != entry
    requires !ChecksFrom(Least(shapes), Compare) && !ChecksFrom(Least(shapes), helper)
    ensures Fits(mro, shapes) && AllOnSelf(mro) && SomeClassRechecks(Read(mro)) && !ComparisonRechecks(mro)
  {
    var extra := HelperCalls(entry, helper);
    mro := With(shapes, i, extra);
    WithFits(shapes, i, extra);
    WithAt(shapes, i, extra, i);
    HelperAnswers(mro, i, entry, helper);
    LostHelperIsMissed(shapes, i, entry, j, helper);
  }

  lemma {:induction false} LostHelperIsMissed(shapes: seq<Shape>, i: nat, entry: Name, j: nat, helper: Name)
    requires j < i < |shapes| && helper in shapes[j].defined && helper != CHECK && helper != entry
    requires !ChecksFrom(Least(shapes), Compare) && !ChecksFrom(Least(shapes), helper)
    ensures !ComparisonRechecks(With(shapes, i, HelperCalls(entry, helper)))
  {
    var extra := HelperCalls(entry, helper);
    var mro, least := With(shapes, i, extra), Least(shapes);
    ReachedIsClosed(least, Compare);
    ReachedIsClosed(least, helper);
    var inside := Reached(least, Compare) + Reached(least, helper);
    BodyUntouched(shapes, i, extra, helper, j);
    forall a, b | SelfCall(mro, a, b) ensures SelfCall(least, a, b) || (a == entry && b == helper) {
      BodyWith(shapes, i, extra, a);
    }
    NeverChecks(mro, inside, Compare);
  }

  lemma {:induction false} HelperAnswers(mro: seq<Methods>, i: nat, entry: Name, helper: Name)
    requires i < |mro| && IsEntry(entry) && entry in mro[i] && helper in mro[i]
    requires Call(helper, true) in mro[i][entry] && Call(CHECK, true) in mro[i][helper]
    ensures SomeClassRechecks(Read(mro))
  {
    var path := [entry, helper];
    assert IsPath(GraphOf(mro[i]), path);
    AnswersAt(mro, i, path);
  }

  lemma {:induction false} Misleading(shapes: seq<Shape>) returns (mro: seq<Methods>)
    requires !Trustworthy(shapes)
    ensures Fits(mro, shapes) && AllOnSelf(mro) && SomeClassRechecks(Read(mro)) && !ComparisonRechecks(mro)
  {
    var i, entry :| 0 <= i < |shapes| && IsEntry(entry) && entry in Speaking(shapes[i])
      && !Guarded(shapes, i, entry);
    if !Leads(Least(shapes), Compare, entry) {
      mro := LoneCheckMisleads(shapes, i, entry, Call(CHECK, true));
    } else {
      var j, helper :| 0 <= j < i && helper in Speaking(shapes[i]) && helper in shapes[j].defined && helper != CHECK
        && !ChecksFrom(Least(shapes), helper);
      if helper == entry {
        mro := LoneCheckMisleads(shapes, i, entry, Call(CHECK, true));
      } else {
        mro := LostHelperMisleads(shapes, i, entry, j, helper);
      }
    }
  }

  // -------------------------------------------------------------- the results

  /** For all classes of these shapes that call on `self`, a positive answer means that the comparison rechecks. */
  ghost predicate AnswersTruly(shapes: seq<Shape>) {
    forall mro :: Fits(mro, shapes) && AllOnSelf(mro) && SomeClassRechecks(Read(mro)) ==> ComparisonRechecks(mro)
  }

  lemma {:induction false} AnswersTrulyIffTrustworthy(shapes: seq<Shape>)
    ensures AnswersTruly(shapes) <==> Trustworthy(shapes)
  {
    if Trustworthy(shapes) {
      forall mro | Fits(mro, shapes) && AllOnSelf(mro) && SomeClassRechecks(Read(mro)) ensures ComparisonRechecks(mro) {
        TrustworthyAnswer(mro, shapes);
      }
    } else {
      var mro := Misleading(shapes);
    }
  }

  /** The same with calls on anything. */
  ghost predicate AnswersTrulyWhateverTheReceiver(shapes: seq<Shape>) {
    forall mro :: Fits(mro, shapes) && SomeClassRechecks(Read(mro)) ==> ComparisonRechecks(mro)
  }

  /** The search drops receivers: without looking at them only a promised check, or no speaking entry, is enough. */
  lemma {:induction false} ReceiversDecide(shapes: seq<Shape>)
    ensures AnswersTrulyWhateverTheReceiver(shapes) <==>
      || ChecksFrom(Least(shapes), Compare)
      || forall i, entry :: 0 <= i < |shapes| && IsEntry(entry) ==> entry !in Speaking(shapes[i])
  {
    if ChecksFrom(Least(shapes), Compare) {
      forall mro | Fits(mro, shapes) ensures ComparisonRechecks(mro) { PromisedCheck(mro, shapes, Compare); }
    } else if i, entry :| 0 <= i < |shapes| && IsEntry(entry) && entry in Speaking(shapes[i]) {
      var mro := LoneCheckMisleads(shapes, i, entry, Call(CHECK, false));
    } else {
      forall mro | Fits(mro, shapes) ensures !SomeClassRechecks(Read(mro)) {
        if SomeClassRechecks(Read(mro)) {
          var i, path := AnsweringPath(mro);
          EntrySpeaks(mro, shapes, i, path);
        }
      }
    }
  }

  lemma {:induction false} LoneClassIsTrustworthy(s: Shape)
    requires forall e :: IsEntry(e) && e in Speaking(s) ==> e == Compare
    ensures Trustworthy([s])
  {
    LeadsToItself(Least([s]), Compare);
  }

  /** `compare` asks another object to `verify`; the class's own `verify`, which checks, is never called. */
  function AsksAnother(): (methods: Methods)
    ensures methods.Keys == {Compare, Other("verify")}
    ensures methods[Compare] == {Call(Other("verify"), false)} && methods[Other("verify")] == {Call(CHECK, true)}
  {
    map[Compare := {Call(Other("verify"), false)}, Other("verify") := {Call(CHECK, true)}]
  }

  lemma {:induction false} AsksAnotherAnswers()
    ensures SomeClassRechecks(Read([AsksAnother()]))
  {
    var methods, path := AsksAnother(), [Compare, Other("verify")];
    assert Call(Other("verify"), false) in methods[Compare] && Call(CHECK, true) in methods[Other("verify")];
    assert IsPath(GraphOf(methods), path);
    AnswersAt([methods], 0, path);
  }

  /** So an answer for trustworthy definitions can still mislead, when receivers are not looked at. */
  lemma {:induction false} AnotherObjectsMethodMisleads()
    ensures Trustworthy([AskingShape()]) && Fits([AsksAnother()], [AskingShape()])
    ensures SomeClassRechecks(Read([AsksAnother()])) && !ComparisonRechecks([AsksAnother()])
  {
    LoneClassIsTrustworthy(AskingShape());
    AsksAnotherAnswers();
    AsksAnotherIsQuiet();
  }

  lemma {:induction false} AsksAnotherIsQuiet()
    ensures !ComparisonRechecks([AsksAnother()])
  {
    NeverChecks([AsksAnother()], iset{Compare}, Compare);
  }

  function AskingShape(): Shape { Shape({Compare, Other("verify")}, {}, map[]) }

  /**
   An adapter whose entry points are all reached from its own `compare`, before classes whose entry
   points are silent, as an abstract `compare` is: nothing those classes define can mislead.
   */
  lemma {:induction false} AdapterOverSilentBases(adapter: Shape, bases: seq<Shape>)
    requires forall e :: IsEntry(e) && e in Speaking(adapter) ==> Leads(Least([adapter] + bases), Compare, e)
    requires forall i, e :: 0 <= i < |bases| && IsEntry(e) ==> e !in Speaking(bases[i])
    ensures AnswersTruly([adapter] + bases)
  {
    EntriesOfTheAdapter(adapter, bases);
    AnswersTrulyIffTrustworthy([adapter] + bases);
  }

  lemma {:induction false} EntriesOfTheAdapter(adapter: Shape, bases: seq<Shape>)
    requires forall e :: IsEntry(e) && e in Speaking(adapter) ==> Leads(Least([adapter] + bases), Compare, e)
    requires forall i, e :: 0 <= i < |bases| && IsEntry(e) ==> e !in Speaking(bases[i])
    ensures Trustworthy([adapter] + bases)
  {
    var shapes := [adapter] + bases;
    assert forall k :: 0 < k < |shapes| ==> shapes[k] == bases[k - 1];
    forall i, e | 0 <= i < |shapes| && IsEntry(e) && e in Speaking(shapes[i])
      ensures Guarded(shapes, i, e)
    {
    }
  }

  /** An adapter whose `compare` calls the check on itself needs nothing else, whatever is called on other objects. */
  lemma {:induction false} OwnCheckIsEnough(adapter: Shape, bases: seq<Shape>)
    requires Compare in Speaking(adapter) && CHECK in Promise(adapter, Compare)
    ensures AnswersTrulyWhateverTheReceiver([adapter] + bases)
  {
    var shapes := [adapter] + bases;
    assert Least(shapes)[0][Compare] == OnSelf(Promise(adapter, Compare));
    LeadsToItself(Least(shapes), Compare);
    assert SelfCall(Least(shapes), Compare, CHECK);
    ReceiversDecide(shapes);
  }
}
