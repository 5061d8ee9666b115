/**
  Static resolution of names to imported symbols, against a small semantics of straight-line Python
  (app/scanner/rule_scanner.py:226-281, 481-513, 544-553, 1030-1050).
 */
module Bindings {
  import opened Wrappers
  import opened Order

  /** A dotted name, component by component. */
  type Dotted = seq<string>

  datatype Position = Position(line: int, column: int) {
    predicate Before(other: Position) {
      line < other.line || (line == other.line && column < other.column)
    }
  }

  datatype Kind = Function | Class

  /** A function or class around a statement; `id` tells equally named ones apart, the scanner sees only the name. */
  datatype Frame = Frame(kind: Kind, name: string, id: nat)

  type Scope = seq<Frame>

  datatype Binding =
    | Import(mod: Dotted, asName: Option<string>)
    | From(level: nat, source: Option<Dotted>, symbol: string, asName: Option<string>)
    | Other(name: string)
  {
    ghost predicate Valid() {
      (Import? ==> mod != []) && (From? && source.Some? ==> source.value != [])
    }

    /** The name bound (ast_scanner.py:405-436). */
    function Name(): string
      requires Import? ==> mod != []
    {
      match this
      case Import(m, a) => if a.Some? then a.value else m[0]
      case From(_, _, symbol, a) => if a.Some? then a.value else symbol
      case Other(name) => name
    }
  }

  /** A place in the text that binds a name. */
  datatype Event = Event(scope: Scope, at: Position, binding: Binding)

  datatype Proof = Proof(event: Event, reference: Dotted)

  function NamesOf(scope: Scope): (r: seq<string>)
    ensures |r| == |scope|
  {
    seq(|scope|, i requires 0 <= i < |scope| => scope[i].name)
  }

  ghost predicate ValidText(text: seq<Event>) {
    forall e :: e in text ==> e.binding.Valid()
  }

  // ----- the scanner -----

  /** `_canonical_import_reference`: what an import makes of a reference that starts with its name. */
  function Canonical(b: Binding, reference: Dotted): Option<Dotted>
    requires reference != []
  {
    match b
    case Import(m, a) => if a.None? then Some(reference) else Some(m + reference[1..])
    case From(level, m, symbol, _) =>
      if level == 0 && m.Some? then Some(m.value + [symbol] + reference[1..]) else None
    case Other(_) => None
  }

  predicate Sees(e: Event, scope: seq<string>, name: string, at: Position)
    requires e.binding.Import? ==> e.binding.mod != []
  {
    NamesOf(e.scope) == scope && e.binding.Name() == name && e.at.Before(at)
  }

  /** The earlier bindings of a name in a scope. */
  function Visible(text: seq<Event>, scope: seq<string>, name: string, at: Position): seq<Event>
    requires ValidText(text)
  {
    if text == [] then []
    else
      var e := text[|text| - 1];
      Visible(text[..|text| - 1], scope, name, at) + (if Sees(e, scope, name, at) then [e] else [])
  }

  /**
    `_BindingIndex.resolve`: the nearest scope with an earlier binding decides, if it has just one and
    that is an import.
   */
  function Resolve(text: seq<Event>, reference: Dotted, at: Position, target: Dotted,
                   scopes: seq<seq<string>>): Option<Proof>
    requires ValidText(text) && reference != []
  {
    if scopes == [] then None
    else
      var events := Visible(text, scopes[0], reference[0], at);
      if events == [] then Resolve(text, reference, at, target, scopes[1..])
      else if |events| != 1 || events[0].binding.Other? then None
      else if Canonical(events[0].binding, reference) != Some(target) then None
      else Some(Proof(events[0], reference))
  }

  /** `_accessible_scopes`: the scope itself, the functions around it from the inside out, the module. */
  method AccessibleScopes(scope: Scope) returns (scopes: seq<seq<string>>)
    ensures scopes == NamesOfAll(VisibleScopes(scope))
  {
    if scope == [] { return [[]]; }
    scopes := [NamesOf(scope)];
    var index := |scope| - 1;
    while index > 0
      invariant 0 <= index < |scope|
      invariant scopes + NamesOfAll(FunctionsAround(scope[..index])) ==
        NamesOfAll([scope] + FunctionsAround(scope[..|scope| - 1]))
    {
      var outer := scope[..index];
      assert outer[..index - 1] == scope[..index - 1];
      if scope[index - 1].kind == Function {
        NamesOfMore(outer, FunctionsAround(scope[..index - 1]));
        scopes := scopes + [NamesOf(outer)];
      }
      index := index - 1;
    }
    NamesOfJoin([scope] + FunctionsAround(scope[..|scope| - 1]), [[]]);
    scopes := scopes + [[]];
  }

  function NamesOfAll(scopes: seq<Scope>): (r: seq<seq<string>>)
    ensures |r| == |scopes|
  {
    seq(|scopes|, i requires 0 <= i < |scopes| => NamesOf(scopes[i]))
  }

  lemma NamesOfMore(s: Scope, rest: seq<Scope>)
    ensures NamesOfAll([s] + rest) == [NamesOf(s)] + NamesOfAll(rest)
  {}

  lemma NamesOfJoin(a: seq<Scope>, b: seq<Scope>)
    ensures NamesOfAll(a + b) == NamesOfAll(a) + NamesOfAll(b)
  {}

  // ----- the scopes of the language (section 4.2.2 of the Python Language Reference) -----

  /** The functions of a path, innermost first: class bodies in between are skipped. */
  function FunctionsAround(scope: Scope): seq<Scope> {
    if scope == [] then []
    else
      (if scope[|scope| - 1].kind == Function then [scope] else []) + FunctionsAround(scope[..|scope| - 1])
  }

  /** The scopes a name is looked up in, nearest first. */
  function VisibleScopes(scope: Scope): seq<Scope> {
    if scope == [] then [[]] else [scope] + FunctionsAround(scope[..|scope| - 1]) + [[]]
  }

  predicate FunctionWithin(p: Scope, scope: Scope) {
    p != [] && p <= scope && p[|p| - 1].kind == Function
  }

  lemma WithinStep(p: Scope, scope: Scope)
    requires scope != []
    ensures FunctionWithin(p, scope) <==>
      (p == scope && scope[|scope| - 1].kind == Function) || FunctionWithin(p, scope[..|scope| - 1])
  {
    if p <= scope && p != scope { assert p <= scope[..|scope| - 1]; }
  }

  lemma {:induction false} FunctionsAroundAre(scope: Scope)
    ensures forall p :: p in FunctionsAround(scope) <==> FunctionWithin(p, scope)
    ensures forall i, j :: 0 <= i < j < |FunctionsAround(scope)| ==>
      |FunctionsAround(scope)[i]| > |FunctionsAround(scope)[j]|
  {
    if scope != [] {
      var before := scope[..|scope| - 1];
      FunctionsAroundAre(before);
      forall p
        ensures p in FunctionsAround(scope) <==> FunctionWithin(p, scope)
      {
        WithinStep(p, scope);
      }
      assert forall p :: FunctionWithin(p, before) ==> |p| < |scope|;
    }
  }

  /**
    Nearest first: the scope itself, then exactly the enclosing functions, then the module; never an
    enclosing class.
   */
  lemma VisibleScopesAre(scope: Scope)
    ensures forall p :: p in VisibleScopes(scope) <==> p == scope || p == [] || FunctionWithin(p, scope)
    ensures forall i, j :: 0 <= i < j < |VisibleScopes(scope)| ==> |VisibleScopes(scope)[i]| > |VisibleScopes(scope)[j]|
  {
    hide FunctionWithin, FunctionsAround;
    if scope != [] {
      var before := scope[..|scope| - 1];
      var around := FunctionsAround(before);
      FunctionsAroundAre(before);
      forall p
        ensures p in VisibleScopes(scope) <==> p == scope || p == [] || FunctionWithin(p, scope)
      {
        WithinStep(p, scope);
      }
      forall k | 0 <= k < |around|
        ensures 0 < |around[k]| < |scope|
      {
        assert around[k] in around;
        WithinBound(around[k], before);
      }
    } else {
      NoneWithinNothing();
    }
  }

  lemma WithinBound(p: Scope, scope: Scope)
    requires FunctionWithin(p, scope)
    ensures 0 < |p| <= |scope|
  {}

  lemma NoneWithinNothing()
    ensures forall p :: !FunctionWithin(p, [])
  {}

  predicate BindsIn(text: seq<Event>, scope: Scope, name: string)
    requires ValidText(text)
  {
    exists e :: e in text && e.scope == scope && e.binding.Name() == name
  }

  /** The scope the language assigns a name to: the nearest one that binds it anywhere. */
  function OwningScope(text: seq<Event>, name: string, scopes: seq<Scope>): Option<Scope>
    requires ValidText(text)
  {
    if scopes == [] then None
    else if BindsIn(text, scopes[0], name) then Some(scopes[0])
    else OwningScope(text, name, scopes[1..])
  }

  // ----- running straight-line code -----

  /** What a name holds: the symbol at a dotted path, or something else. */
  type Env = map<string, Option<Dotted>>

  /** The object an import puts into its name; a relative import is not a known symbol. */
  function ValueOf(b: Binding): Option<Dotted>
    requires b.Import? ==> b.mod != []
  {
    match b
    case Import(m, a) => if a.None? then Some([m[0]]) else Some(m)
    case From(level, m, symbol, _) => if level == 0 && m.Some? then Some(m.value + [symbol]) else None
    case Other(_) => None
  }

  /** The names of one scope after its executed bindings. */
  function Execute(executed: seq<Event>): Env
    requires ValidText(executed)
  {
    if executed == [] then map[]
    else
      var b := executed[|executed| - 1].binding;
      Execute(executed[..|executed| - 1])[b.Name() := ValueOf(b)]
  }

  function Denotes(env: Env, reference: Dotted): Option<Dotted>
    requires reference != []
  {
    if reference[0] in env && env[reference[0]].Some? then Some(env[reference[0]].value + reference[1..]) else None
  }

  /**
    How straight-line code relates text and execution for one name used at `at` in a scope: of the
    bindings of the name only earlier ones have been executed, and every earlier import has been.
    An earlier assignment need not have been: the target of `x = x(..)` stands before its value.
   */
  ghost predicate StraightLine(text: seq<Event>, scope: seq<string>, name: string, at: Position, executed: seq<Event>)
    requires ValidText(text) && ValidText(executed)
  {
    NoDuplicates(text) && NoDuplicates(executed) &&
    (forall e :: e in executed && e.binding.Name() == name ==> e in text && Sees(e, scope, name, at)) &&
    (forall e :: e in text && Sees(e, scope, name, at) && !e.binding.Other? ==> e in executed)
  }

  // ----- visible bindings -----

  lemma {:induction false} VisibleIs(text: seq<Event>, scope: seq<string>, name: string, at: Position)
    requires ValidText(text)
    ensures forall e :: e in Visible(text, scope, name, at) <==> e in text && Sees(e, scope, name, at)
    ensures NoDuplicates(text) ==> NoDuplicates(Visible(text, scope, name, at))
  {
    if text != [] {
      var n := |text| - 1;
      assert text == text[..n] + [text[n]];
      VisibleIs(text[..n], scope, name, at);
      assert forall i :: 0 <= i < n ==> text[i] in text[..n];
    }
  }

  lemma {:induction false} ExecuteHolds(executed: seq<Event>, name: string)
    requires ValidText(executed)
    ensures name in Execute(executed) <==> exists e :: e in executed && e.binding.Name() == name
    ensures name in Execute(executed) ==>
      exists e :: e in executed && e.binding.Name() == name && Execute(executed)[name] == ValueOf(e.binding)
  {
    if executed != [] {
      var n := |executed| - 1;
      assert executed == executed[..n] + [executed[n]];
      ExecuteHolds(executed[..n], name);
      assert executed[n] in executed;
    }
  }

  /** The canonical reference is what the import's value makes of the reference. */
  lemma CanonicalDenotes(b: Binding, reference: Dotted)
    requires reference != [] && b.Valid() && b.Name() == reference[0]
    ensures Canonical(b, reference) ==
      match ValueOf(b) { case Some(path) => Some(path + reference[1..]) case None => None }
  {
    assert reference == [reference[0]] + reference[1..];
  }

  // ----- soundness -----

  /** The scope that decides: the first with an earlier binding. */
  function DecidingScope(text: seq<Event>, name: string, at: Position, scopes: seq<seq<string>>): Option<seq<string>>
    requires ValidText(text)
  {
    if scopes == [] then None
    else if Visible(text, scopes[0], name, at) != [] then Some(scopes[0])
    else DecidingScope(text, name, at, scopes[1..])
  }

  lemma {:induction false} ResolveDecides(text: seq<Event>, reference: Dotted, at: Position, target: Dotted,
                                          scopes: seq<seq<string>>)
    requires ValidText(text) && reference != []
    ensures var s := DecidingScope(text, reference[0], at, scopes);
            Resolve(text, reference, at, target, scopes) ==
            if s.None? then None else Resolve(text, reference, at, target, [s.value])
  {
    if scopes != [] && Visible(text, scopes[0], reference[0], at) == [] {
      ResolveDecides(text, reference, at, target, scopes[1..]);
    }
  }

  /**
    A proof is given exactly when the deciding scope has a single earlier binding of the name and
    executing the scope makes the reference denote exactly the target symbol.
   */
  lemma ProofIffDenotes(text: seq<Event>, reference: Dotted, at: Position, target: Dotted, scopes: seq<seq<string>>,
                        scope: seq<string>, executed: seq<Event>)
    requires ValidText(text) && ValidText(executed) && reference != []
    requires DecidingScope(text, reference[0], at, scopes) == Some(scope)
    requires StraightLine(text, scope, reference[0], at, executed)
    ensures Resolve(text, reference, at, target, scopes).Some? <==>
      |Visible(text, scope, reference[0], at)| == 1 && Denotes(Execute(executed), reference) == Some(target)
  {
    var name := reference[0];
    var events := Visible(text, scope, name, at);
    ResolveDecides(text, reference, at, target, scopes);
    VisibleIs(text, scope, name, at);
    ExecuteHolds(executed, name);
    if |events| == 1 {
      var e := events[0];
      assert e in events;
      assert forall x :: x in executed && x.binding.Name() == name ==> x in events && x == e;
      CanonicalDenotes(e.binding, reference);
      if e.binding.Other? {
        assert Denotes(Execute(executed), reference).None?;
      } else {
        assert name in Execute(executed) && Execute(executed)[name] == ValueOf(e.binding);
      }
    }
    SingleScope(text, reference, at, target, scope);
  }

  lemma SingleScope(text: seq<Event>, reference: Dotted, at: Position, target: Dotted, scope: seq<string>)
    requires ValidText(text) && reference != []
    ensures var events := Visible(text, scope, reference[0], at);
            Resolve(text, reference, at, target, [scope]).Some? <==>
            |events| == 1 && !events[0].binding.Other? && Canonical(events[0].binding, reference) == Some(target)
  {
    assert [scope][1..] == [];
    assert Resolve(text, reference, at, target, []).None?;
  }

  // ----- what can change an answer -----

  lemma {:induction false} VisibleJoin(a: seq<Event>, b: seq<Event>, scope: seq<string>, name: string, at: Position)
    requires ValidText(a) && ValidText(b)
    ensures ValidText(a + b)
    ensures Visible(a + b, scope, name, at) == Visible(a, scope, name, at) + Visible(b, scope, name, at)
  {
    if b == [] {
      assert a + b == a;
    } else {
      var n := |b| - 1;
      VisibleJoin(a, b[..n], scope, name, at);
      assert (a + b)[..|a + b| - 1] == a + b[..n];
      JoinAssociates(Visible(a, scope, name, at), Visible(b[..n], scope, name, at),
                     if Sees(b[n], scope, name, at) then [b[n]] else []);
    }
  }

  lemma FirstSeen<T>(seen: seq<T>)
    ensures seen != [] ==> exists x :: x in seen
  {
    if seen != [] { assert seen[0] in seen; }
  }

  /** Bindings that are not earlier than the use, or bind other names, never change the answer. */
  lemma {:induction false} LaterBindingsIrrelevant(text: seq<Event>, more: seq<Event>, reference: Dotted, at: Position,
                                                   target: Dotted, scopes: seq<seq<string>>)
    requires ValidText(text) && ValidText(more) && reference != []
    requires forall e :: e in more ==> !e.at.Before(at) || e.binding.Name() != reference[0]
    ensures ValidText(text + more)
    ensures Resolve(text + more, reference, at, target, scopes) == Resolve(text, reference, at, target, scopes)
  {
    if scopes != [] {
      VisibleJoin(text, more, scopes[0], reference[0], at);
      VisibleIs(more, scopes[0], reference[0], at);
      FirstSeen(Visible(more, scopes[0], reference[0], at));
      LaterBindingsIrrelevant(text, more, reference, at, target, scopes[1..]);
    }
  }

  /** One more earlier binding in the deciding scope leaves no proof at all, whatever it binds. */
  lemma {:induction false} EarlierBindingOnlyRemoves(text: seq<Event>, e: Event, reference: Dotted, at: Position,
                                                     target: Dotted, scopes: seq<seq<string>>)
    requires ValidText(text) && e.binding.Valid() && reference != []
    requires DecidingScope(text, reference[0], at, scopes) == Some(NamesOf(e.scope))
    requires e.binding.Name() == reference[0] && e.at.Before(at)
    ensures ValidText(text + [e]) && Resolve(text + [e], reference, at, target, scopes).None?
  {
    hide Visible, NamesOf, Canonical;
    var scope := scopes[0];
    VisibleJoin(text, [e], scope, reference[0], at);
    OneEvent(e, scope, reference[0], at);
    if Visible(text, scope, reference[0], at) == [] {
      if NamesOf(e.scope) == scope { DecidingHasOne(text, reference[0], at, scopes[1..]); }
      EarlierBindingOnlyRemoves(text, e, reference, at, target, scopes[1..]);
    }
  }

  lemma {:induction false} DecidingHasOne(text: seq<Event>, name: string, at: Position, scopes: seq<seq<string>>)
    requires ValidText(text) && DecidingScope(text, name, at, scopes).Some?
    ensures Visible(text, DecidingScope(text, name, at, scopes).value, name, at) != []
  {
    if Visible(text, scopes[0], name, at) == [] { DecidingHasOne(text, name, at, scopes[1..]); }
  }

  // ----- nested scopes -----

  /** Scopes in play that share their names are the same scope. */
  ghost predicate NamesIdentify(text: seq<Event>, scopes: seq<Scope>) {
    forall e, s :: e in text && s in scopes && NamesOf(e.scope) == NamesOf(s) ==> e.scope == s
  }

  predicate BindsEarlier(text: seq<Event>, scope: Scope, name: string, at: Position)
    requires ValidText(text)
  {
    exists e :: e in text && e.scope == scope && e.binding.Name() == name && e.at.Before(at)
  }

  /**
    The scanner decides in the scope the language assigns the name to exactly when that scope binds
    the name before the use; a local bound only afterwards is passed over.
   */
  lemma {:induction false} DecidesInOwningScopeIff(text: seq<Event>, name: string, at: Position, scopes: seq<Scope>)
    requires ValidText(text) && NamesIdentify(text, scopes)
    ensures var owner := OwningScope(text, name, scopes);
            var decider := DecidingScope(text, name, at, NamesOfAll(scopes));
            (owner.None? ==> decider.None?) &&
            (owner.Some? ==> (decider == Some(NamesOf(owner.value)) <==> BindsEarlier(text, owner.value, name, at)))
  {
    if scopes != [] {
      var seen := Visible(text, NamesOf(scopes[0]), name, at);
      VisibleIs(text, NamesOf(scopes[0]), name, at);
      FirstSeen(seen);
      assert seen != [] <==> BindsEarlier(text, scopes[0], name, at);
      assert NamesOfAll(scopes)[1..] == NamesOfAll(scopes[1..]);
      assert forall s :: s in scopes[1..] ==> s in scopes;
      if BindsIn(text, scopes[0], name) {
        if seen == [] { NeverSeenLater(text, name, at, scopes[0], scopes[1..]); }
      } else {
        DecidesInOwningScopeIff(text, name, at, scopes[1..]);
      }
    }
  }

  /** A scope without an earlier binding is never the one that decides. */
  lemma {:induction false} NeverSeenLater(text: seq<Event>, name: string, at: Position, scope: Scope, rest: seq<Scope>)
    requires ValidText(text) && Visible(text, NamesOf(scope), name, at) == []
    ensures DecidingScope(text, name, at, NamesOfAll(rest)) != Some(NamesOf(scope))
  {
    if rest != [] {
      assert NamesOfAll(rest)[1..] == NamesOfAll(rest[1..]);
      NeverSeenLater(text, name, at, scope, rest[1..]);
    }
  }

  // ----- where positions and names mislead -----

  lemma OneEvent(e: Event, scope: seq<string>, name: string, at: Position)
    requires e.binding.Valid()
    ensures Visible([e], scope, name, at) == if Sees(e, scope, name, at) then [e] else []
  {
    assert [e][..0] == [];
  }

  lemma TwoScopes(text: seq<Event>, reference: Dotted, at: Position, target: Dotted, inner: seq<string>,
                  outer: seq<string>)
    requires ValidText(text) && reference != [] && Visible(text, inner, reference[0], at) == []
    ensures Resolve(text, reference, at, target, [inner, outer]) == Resolve(text, reference, at, target, [outer])
  {
    assert [inner, outer][1..] == [outer];
  }

  /** Two functions of one name: an import in the first makes a proof in the second, which never ran it. */
  lemma EquallyNamedFunctions(mod: Dotted, name: string)
    requires mod != []
    ensures var first, second := [Frame(Function, "f", 0)], [Frame(Function, "f", 1)];
            var text := [Event(first, Position(2, 4), From(0, Some(mod), name, None))];
            ValidText(text) && OwningScope(text, name, VisibleScopes(second)).None? &&
            Resolve(text, [name], Position(4, 4), mod + [name], NamesOfAll(VisibleScopes(second))).Some?
  {
    hide Resolve, OwningScope, Visible;
    var first, second := [Frame(Function, "f", 0)], [Frame(Function, "f", 1)];
    var e := Event(first, Position(2, 4), From(0, Some(mod), name, None));
    assert NamesOf(first) == ["f"] && NamesOf(second) == ["f"];
    OneEvent(e, ["f"], name, Position(4, 4));
    assert second[..0] == [] && FunctionsAround([]) == [];
    assert VisibleScopes(second) == [second, []];
    assert mod + [name] + [name][1..] == mod + [name];
    assert first[0].id != second[0].id;
    NotBound(e, second, name);
    NotBound(e, [], name);
    NobodyOwns([e], name, second, []);
    TwoResolve([e], [name], Position(4, 4), mod + [name], ["f"], NamesOf([]));
    SingleScope([e], [name], Position(4, 4), mod + [name], ["f"]);
    assert NamesOfAll([second, []]) == [["f"], NamesOf([])];
  }

  lemma NobodyOwns(text: seq<Event>, name: string, a: Scope, b: Scope)
    requires ValidText(text) && !BindsIn(text, a, name) && !BindsIn(text, b, name)
    ensures OwningScope(text, name, [a, b]).None?
  {
    assert [a, b][1..] == [b] && [b][1..] == [];
    assert OwningScope(text, name, []).None?;
    assert OwningScope(text, name, [b]).None?;
  }

  /** What the nearest scope sees, it decides. */
  lemma TwoResolve(text: seq<Event>, reference: Dotted, at: Position, target: Dotted, inner: seq<string>,
                   outer: seq<string>)
    requires ValidText(text) && reference != [] && Visible(text, inner, reference[0], at) != []
    ensures Resolve(text, reference, at, target, [inner, outer]) == Resolve(text, reference, at, target, [inner])
  {}

  lemma NotBound(e: Event, scope: Scope, name: string)
    requires e.binding.Valid() && e.scope != scope
    ensures !BindsIn([e], scope, name)
  {}

  /** An import of the module proves a use in a function, whatever else is bound afterwards. */
  lemma ModuleImportProves(imported: Event, other: Event, mod: Dotted, name: string, at: Position)
    requires mod != [] && other.binding.Valid() && imported.at.Before(at) && !other.at.Before(at)
    requires imported.scope == [] && imported.binding == From(0, Some(mod), name, None)
    ensures ValidText([imported, other])
    ensures Resolve([imported, other], [name], at, mod + [name], [["f"], []]) == Some(Proof(imported, [name]))
  {
    assert NamesOf([]) == [] && [imported] + [other] == [imported, other];
    OneEvent(imported, ["f"], name, at);
    OneEvent(other, ["f"], name, at);
    OneEvent(imported, [], name, at);
    OneEvent(other, [], name, at);
    VisibleJoin([imported], [other], ["f"], name, at);
    VisibleJoin([imported], [other], [], name, at);
    TwoScopes([imported, other], [name], at, mod + [name], ["f"], []);
    assert mod + [name] + [name][1..] == mod + [name];
  }

  lemma ExecuteTwo(a: Event, b: Event)
    requires a.binding.Valid() && b.binding.Valid()
    ensures Execute([a]) == map[a.binding.Name() := ValueOf(a.binding)]
    ensures Execute([a, b]) == Execute([a])[b.binding.Name() := ValueOf(b.binding)]
  {
    assert [a][..0] == [] && [a, b][..1] == [a];
  }

  /** A use in a function that runs after the module rebound the name: the proof outlives what it proved. */
  lemma RebindingAfterwards(mod: Dotted, name: string)
    requires mod != []
    ensures var imported := Event([], Position(1, 0), From(0, Some(mod), name, None));
            var rebound := Event([], Position(4, 0), Other(name));
            ValidText([imported, rebound]) &&
            Resolve([imported, rebound], [name], Position(3, 4), mod + [name], [["f"], []]).Some? &&
            Denotes(Execute([imported]), [name]) == Some(mod + [name]) &&
            Denotes(Execute([imported, rebound]), [name]).None?
  {
    hide Resolve, Execute;
    var imported := Event([], Position(1, 0), From(0, Some(mod), name, None));
    var rebound := Event([], Position(4, 0), Other(name));
    ModuleImportProves(imported, rebound, mod, name, Position(3, 4));
    ExecuteTwo(imported, rebound);
    assert mod + [name] + [name][1..] == mod + [name];
  }

  // ----- how long a proof holds -----

  /** The last of the bindings of a name. */
  function LastBinding(executed: seq<Event>, name: string): (r: Option<Event>)
    requires ValidText(executed)
    ensures r.Some? ==> r.value in executed && r.value.binding.Name() == name
    ensures r.Some? <==> exists e :: e in executed && e.binding.Name() == name
  {
    if executed == [] then None
    else
      var e := executed[|executed| - 1];
      assert executed == executed[..|executed| - 1] + [e];
      if e.binding.Name() == name then Some(e) else LastBinding(executed[..|executed| - 1], name)
  }

  lemma {:induction false} ExecuteIsLast(executed: seq<Event>, name: string)
    requires ValidText(executed)
    ensures name in Execute(executed) <==> LastBinding(executed, name).Some?
    ensures name in Execute(executed) ==> Execute(executed)[name] == ValueOf(LastBinding(executed, name).value.binding)
  {
    if executed != [] { ExecuteIsLast(executed[..|executed| - 1], name); }
  }

  /** What a proof is about: the one earlier binding of the deciding scope, an import of the target. */
  lemma {:induction false} ProofIs(text: seq<Event>, reference: Dotted, at: Position, target: Dotted,
                                   scopes: seq<seq<string>>)
    requires ValidText(text) && reference != [] && Resolve(text, reference, at, target, scopes).Some?
    ensures var e := Resolve(text, reference, at, target, scopes).value.event;
            e in text && e.at.Before(at) && e.binding.Name() == reference[0] && ValueOf(e.binding).Some? &&
            ValueOf(e.binding).value + reference[1..] == target &&
            Visible(text, NamesOf(e.scope), reference[0], at) == [e]
  {
    var seen := Visible(text, scopes[0], reference[0], at);
    VisibleIs(text, scopes[0], reference[0], at);
    if seen == [] {
      ProofIs(text, reference, at, target, scopes[1..]);
    } else {
      assert seen[0] in seen && seen == [seen[0]];
      CanonicalDenotes(seen[0].binding, reference);
    }
  }

  lemma SameFront(a: Dotted, b: Dotted, c: Dotted)
    ensures a + c == b + c <==> a == b
  {
    if a + c == b + c { assert a == (a + c)[..|a|] && b == (b + c)[..|b|]; }
  }

  /**
    However late the use runs: with the proved import among the executed bindings of its scope, the
    reference denotes the target exactly when the last executed binding of the name has the same value.
   */
  lemma ProofHoldsIff(text: seq<Event>, reference: Dotted, at: Position, target: Dotted, scopes: seq<seq<string>>,
                      executed: seq<Event>)
    requires ValidText(text) && ValidText(executed) && reference != [] &&
      Resolve(text, reference, at, target, scopes).Some?
    requires Resolve(text, reference, at, target, scopes).value.event in executed
    ensures var e := Resolve(text, reference, at, target, scopes).value.event;
            LastBinding(executed, reference[0]).Some? &&
            (Denotes(Execute(executed), reference) == Some(target) <==>
             ValueOf(LastBinding(executed, reference[0]).value.binding) == ValueOf(e.binding))
  {
    hide Resolve, Visible;
    var e := Resolve(text, reference, at, target, scopes).value.event;
    ProofIs(text, reference, at, target, scopes);
    ExecuteIsLast(executed, reference[0]);
    var last := LastBinding(executed, reference[0]).value;
    if ValueOf(last.binding).Some? { SameFront(ValueOf(last.binding).value, ValueOf(e.binding).value, reference[1..]); }
  }

  /** The text in the order it runs. */
  ghost predicate InOrder(text: seq<Event>) {
    forall i, j :: 0 <= i < j < |text| ==> text[i].at.Before(text[j].at)
  }

  /** What a scope has executed by a time: its bindings standing before it. */
  function ExecutedBy(text: seq<Event>, scope: seq<string>, time: Position): seq<Event> {
    if text == [] then []
    else
      var e := text[|text| - 1];
      ExecutedBy(text[..|text| - 1], scope, time) + (if NamesOf(e.scope) == scope && e.at.Before(time) then [e] else [])
  }

  lemma {:induction false} ExecutedByIs(text: seq<Event>, scope: seq<string>, time: Position)
    ensures forall e :: e in ExecutedBy(text, scope, time) <==>
      e in text && NamesOf(e.scope) == scope && e.at.Before(time)
    ensures ValidText(text) ==> ValidText(ExecutedBy(text, scope, time))
  {
    if text != [] {
      var n := |text| - 1;
      ExecutedByIs(text[..n], scope, time);
      assert text == text[..n] + [text[n]];
    }
  }

  lemma {:induction false} ExecutedInOrder(text: seq<Event>, scope: seq<string>, time: Position)
    requires InOrder(text)
    ensures InOrder(ExecutedBy(text, scope, time))
  {
    if text != [] {
      var n := |text| - 1;
      var before := ExecutedBy(text[..n], scope, time);
      ExecutedInOrder(text[..n], scope, time);
      ExecutedByIs(text[..n], scope, time);
      forall i | 0 <= i < |before|
        ensures before[i].at.Before(text[n].at)
      {
        assert before[i] in before;
        var k :| 0 <= k < n && text[k] == before[i];
      }
    }
  }

  /** In order, the last binding of a name is the latest. */
  lemma {:induction false} LastIsLatest(executed: seq<Event>, name: string, e: Event)
    requires ValidText(executed) && InOrder(executed) && e in executed && e.binding.Name() == name
    ensures LastBinding(executed, name).Some?
    ensures e.at.Before(LastBinding(executed, name).value.at) || e == LastBinding(executed, name).value
  {
    var n := |executed| - 1;
    if executed[n].binding.Name() == name {
      var k :| 0 <= k <= n && executed[k] == e;
    } else {
      assert executed == executed[..n] + [executed[n]];
      LastIsLatest(executed[..n], name, e);
    }
  }

  /** Every binding of the name from the use on has the proved value again. */
  ghost predicate NeverRebound(text: seq<Event>, e: Event, at: Position)
    requires ValidText(text) && e.binding.Valid()
  {
    forall x :: x in text && NamesOf(x.scope) == NamesOf(e.scope) && x.binding.Name() == e.binding.Name() &&
           !x.at.Before(at)
      ==> ValueOf(x.binding) == ValueOf(e.binding)
  }

  /** A proof holds whenever the use runs exactly when nothing from the use on binds the name to another value. */
  lemma ProofHoldsAlwaysIff(text: seq<Event>, reference: Dotted, at: Position, target: Dotted, scopes: seq<seq<string>>)
    requires ValidText(text) && InOrder(text) && reference != [] && Resolve(text, reference, at, target, scopes).Some?
    ensures var e := Resolve(text, reference, at, target, scopes).value.event;
            e.binding.Valid() &&
            (NeverRebound(text, e, at) <==>
             forall time: Position :: !time.Before(at) ==> HoldsAt(text, e, reference, target, time))
  {
    hide Resolve;
    ProofIs(text, reference, at, target, scopes);
    var e := Resolve(text, reference, at, target, scopes).value.event;
    if NeverRebound(text, e, at) {
      forall time: Position | !time.Before(at)
        ensures HoldsAt(text, e, reference, target, time)
      {
        HoldsWhileUnbound(text, reference, at, target, scopes, time);
      }
    } else {
      var x :| x in text && NamesOf(x.scope) == NamesOf(e.scope) && x.binding.Name() == e.binding.Name() &&
        !x.at.Before(at) &&
        ValueOf(x.binding) != ValueOf(e.binding);
      var time := Position(x.at.line, x.at.column + 1);
      FailsOnceRebound(text, reference, at, target, scopes, x, time);
      assert !time.Before(at) && !HoldsAt(text, e, reference, target, time);
    }
  }

  /** At a time the scope of `e` has been executed up to, the reference denotes the target. */
  ghost predicate HoldsAt(text: seq<Event>, e: Event, reference: Dotted, target: Dotted, time: Position)
    requires ValidText(text) && reference != []
  {
    ExecutedByIs(text, NamesOf(e.scope), time);
    Denotes(Execute(ExecutedBy(text, NamesOf(e.scope), time)), reference) == Some(target)
  }

  lemma HoldsWhileUnbound(text: seq<Event>, reference: Dotted, at: Position, target: Dotted, scopes: seq<seq<string>>,
                          time: Position)
    requires ValidText(text) && reference != [] && Resolve(text, reference, at, target, scopes).Some? &&
      !time.Before(at)
    requires Resolve(text, reference, at, target, scopes).value.event.binding.Valid()
    requires NeverRebound(text, Resolve(text, reference, at, target, scopes).value.event, at)
    ensures HoldsAt(text, Resolve(text, reference, at, target, scopes).value.event, reference, target, time)
  {
    hide Resolve, Visible;
    ProofIs(text, reference, at, target, scopes);
    var e := Resolve(text, reference, at, target, scopes).value.event;
    var executed := ExecutedBy(text, NamesOf(e.scope), time);
    ExecutedByIs(text, NamesOf(e.scope), time);
    ProofHoldsIff(text, reference, at, target, scopes, executed);
    var last := LastBinding(executed, reference[0]).value;
    if last.at.Before(at) {
      VisibleIs(text, NamesOf(e.scope), reference[0], at);
      assert last in Visible(text, NamesOf(e.scope), reference[0], at);
    }
  }

  lemma FailsOnceRebound(text: seq<Event>, reference: Dotted, at: Position, target: Dotted, scopes: seq<seq<string>>,
                         x: Event, time: Position)
    requires ValidText(text) && InOrder(text) && reference != [] && Resolve(text, reference, at, target, scopes).Some?
    requires var e := Resolve(text, reference, at, target, scopes).value.event;
             e.binding.Valid() && x in text && NamesOf(x.scope) == NamesOf(e.scope) &&
               x.binding.Name() == reference[0] && !x.at.Before(at) &&
             ValueOf(x.binding) != ValueOf(e.binding)
    requires time == Position(x.at.line, x.at.column + 1)
    ensures !HoldsAt(text, Resolve(text, reference, at, target, scopes).value.event, reference, target, time)
  {
    hide Resolve, Visible;
    ProofIs(text, reference, at, target, scopes);
    var e := Resolve(text, reference, at, target, scopes).value.event;
    var executed := ExecutedBy(text, NamesOf(e.scope), time);
    ExecutedByIs(text, NamesOf(e.scope), time);
    ExecutedInOrder(text, NamesOf(e.scope), time);
    ProofHoldsIff(text, reference, at, target, scopes, executed);
    LastIsLatest(executed, reference[0], x);
    var last := LastBinding(executed, reference[0]).value;
    assert !x.at.Before(last.at);
  }

  /** A name bound in the function only after its use is its own, and the proof speaks of the module's. */
  lemma LocalBoundLater(mod: Dotted, name: string)
    requires mod != []
    ensures var f := [Frame(Function, "f", 0)];
            var imported := Event([], Position(1, 0), From(0, Some(mod), name, None));
            var local := Event(f, Position(4, 4), Other(name));
            ValidText([imported, local]) &&
            Resolve([imported, local], [name], Position(3, 4), mod + [name], [["f"], []]).Some? &&
            OwningScope([imported, local], name, [f, []]) == Some(f) &&
            !BindsEarlier([imported, local], f, name, Position(3, 4))
  {
    hide Resolve;
    var f := [Frame(Function, "f", 0)];
    var imported := Event([], Position(1, 0), From(0, Some(mod), name, None));
    var local := Event(f, Position(4, 4), Other(name));
    ModuleImportProves(imported, local, mod, name, Position(3, 4));
    assert local in [imported, local] && BindsIn([imported, local], f, name);
  }

  // ----- receivers: local classes, parameters and variables (rule_scanner.py:420-513) -----

  /** The bindings among `events` that are not imports; the receiver index knows no others. */
  function Locals(events: seq<Event>): seq<Event> {
    if events == [] then []
    else
      var e := events[|events| - 1];
      Locals(events[..|events| - 1]) + (if e.binding.Other? then [e] else [])
  }

  /** `_ReceiverBindingIndex.resolve`: the binding of known type, if any, and whether some scope decided. */
  function ResolveReceiver(text: seq<Event>, typed: set<Event>, name: string, at: Position,
                           scopes: seq<seq<string>>): (Option<Event>, bool)
    requires ValidText(text)
  {
    if scopes == [] then (None, false)
    else
      var events := Locals(Visible(text, scopes[0], name, at));
      if events == [] then ResolveReceiver(text, typed, name, at, scopes[1..])
      else if |events| == 1 && events[0] in typed then (Some(events[0]), true)
      else (None, true)
  }

  /** The scope has an earlier binding of the name that is no import. */
  ghost predicate SeesLocal(text: seq<Event>, scope: seq<string>, name: string, at: Position)
    requires ValidText(text)
  {
    exists e :: e in text && e.binding.Other? && Sees(e, scope, name, at)
  }

  ghost predicate OnlyLocal(text: seq<Event>, scope: seq<string>, name: string, at: Position, e: Event)
    requires ValidText(text)
  {
    e in text && e.binding.Other? && Sees(e, scope, name, at) &&
    forall x :: x in text && x.binding.Other? && Sees(x, scope, name, at) ==> x == e
  }

  /** The nearest of the scopes with such a binding is the one at `k`. */
  ghost predicate NearestLocal(text: seq<Event>, scopes: seq<seq<string>>, name: string, at: Position, k: nat)
    requires ValidText(text)
  {
    k < |scopes| && SeesLocal(text, scopes[k], name, at) &&
    forall m: nat :: m < k ==> !SeesLocal(text, scopes[m], name, at)
  }

  lemma LocalsInScope(text: seq<Event>, scope: seq<string>, name: string, at: Position)
    requires ValidText(text) && NoDuplicates(text)
    ensures var events := Locals(Visible(text, scope, name, at));
            (events != [] <==> SeesLocal(text, scope, name, at)) &&
            (|events| == 1 ==> OnlyLocal(text, scope, name, at, events[0])) &&
            forall e :: OnlyLocal(text, scope, name, at, e) ==> events == [e]
  {
    hide Visible, Sees;
    VisibleIs(text, scope, name, at);
    var seen := Visible(text, scope, name, at);
    LocalsAre(seen);
    LocalsDistinct(seen);
    var events := Locals(seen);
    if events != [] { assert events[0] in events; }
    forall e | OnlyLocal(text, scope, name, at, e)
      ensures events == [e]
    {
      assert e in events;
      AllSame(events, e);
    }
    if |events| == 1 {
      forall x | x in text && x.binding.Other? && Sees(x, scope, name, at)
        ensures x == events[0]
      {
        assert x in events;
      }
    }
  }

  lemma AllSame<T>(s: seq<T>, x: T)
    requires NoDuplicates(s) && x in s && forall y :: y in s ==> y == x
    ensures s == [x]
  {
    SetOfSeq(s);
    assert (set y | y in s) == {x};
  }

  lemma {:induction false} LocalsDistinct(events: seq<Event>)
    requires NoDuplicates(events)
    ensures NoDuplicates(Locals(events))
  {
    if events != [] {
      var n := |events| - 1;
      LocalsDistinct(events[..n]);
      LocalsAre(events[..n]);
    }
  }

  /**
    The nearest scope with an earlier binding of the name that is no import decides: with a proof
    exactly when that is its only one and of known type, and else without.
   */
  lemma {:induction false} ReceiverIff(text: seq<Event>, typed: set<Event>, name: string, at: Position,
                                       scopes: seq<seq<string>>)
    requires ValidText(text) && NoDuplicates(text)
    ensures var (proof, decided) := ResolveReceiver(text, typed, name, at, scopes);
            (decided <==> exists k: nat :: NearestLocal(text, scopes, name, at, k)) &&
            (proof.Some? ==> decided) &&
            forall e, k: nat :: NearestLocal(text, scopes, name, at, k) ==>
              (proof == Some(e) <==> OnlyLocal(text, scopes[k], name, at, e) && e in typed)
  {
    hide Visible, SeesLocal, OnlyLocal, Locals;
    if scopes != [] {
      LocalsInScope(text, scopes[0], name, at);
      if SeesLocal(text, scopes[0], name, at) {
        assert NearestLocal(text, scopes, name, at, 0);
      } else {
        ReceiverIff(text, typed, name, at, scopes[1..]);
        forall k: nat
          ensures NearestLocal(text, scopes, name, at, k) <==> k > 0 && NearestLocal(text, scopes[1..], name, at, k - 1)
        {
          if k > 0 { NearestFurther(text, scopes, name, at, k - 1); }
        }
        var (proof, decided) := ResolveReceiver(text, typed, name, at, scopes[1..]);
        hide NearestLocal;
        if decided {
          var k: nat :| NearestLocal(text, scopes[1..], name, at, k);
          assert NearestLocal(text, scopes, name, at, k + 1);
        }
        forall e, k: nat | NearestLocal(text, scopes, name, at, k)
          ensures k < |scopes| && decided
          ensures proof == Some(e) <==> OnlyLocal(text, scopes[k], name, at, e) && e in typed
        {
          NearestWithin(text, scopes[1..], name, at, k - 1);
          assert scopes[1..][k - 1] == scopes[k];
        }
      }
    }
  }

  lemma NearestWithin(text: seq<Event>, scopes: seq<seq<string>>, name: string, at: Position, k: nat)
    requires ValidText(text) && NearestLocal(text, scopes, name, at, k)
    ensures k < |scopes|
  {}

  lemma NearestFurther(text: seq<Event>, scopes: seq<seq<string>>, name: string, at: Position, k: nat)
    requires ValidText(text) && scopes != [] && !SeesLocal(text, scopes[0], name, at)
    ensures NearestLocal(text, scopes, name, at, k + 1) <==> NearestLocal(text, scopes[1..], name, at, k)
  {
    hide SeesLocal;
    if NearestLocal(text, scopes, name, at, k + 1) {
      forall m: nat | m < k
        ensures !SeesLocal(text, scopes[1..][m], name, at)
      {
        assert !SeesLocal(text, scopes[m + 1], name, at);
      }
    }
    if NearestLocal(text, scopes[1..], name, at, k) {
      forall m: nat | m < k + 1
        ensures !SeesLocal(text, scopes[m], name, at)
      {
        if m > 0 { assert scopes[m] == scopes[1..][m - 1] && !SeesLocal(text, scopes[1..][m - 1], name, at); }
      }
    }
  }

  datatype ReceiverProof = ByBinding(event: Event) | ByImport(proof: Proof)

  /** `_resolve_receiver`: an import proves a receiver only if no other kind of binding decided. */
  function ProveReceiver(text: seq<Event>, typed: set<Event>, reference: Dotted, at: Position, target: Dotted,
                         scopes: seq<seq<string>>): Option<ReceiverProof>
    requires ValidText(text) && reference != []
  {
    var (proof, decided) :=
      if |reference| == 1 then ResolveReceiver(text, typed, reference[0], at, scopes) else (None, false);
    if proof.Some? then Some(ByBinding(proof.value))
    else if decided then None
    else
      var imported := Resolve(text, reference, at, target, scopes);
      if imported.Some? then Some(ByImport(imported.value)) else None
  }

  /** A plain name that some accessible scope binds earlier, other than by an import. */
  ghost predicate BoundLocally(text: seq<Event>, reference: Dotted, at: Position, scopes: seq<seq<string>>)
    requires ValidText(text) && reference != []
  {
    |reference| == 1 && exists k: nat :: NearestLocal(text, scopes, reference[0], at, k)
  }

  /** Imports are asked exactly for what no scope binds locally; a local binding has the last word. */
  lemma ReceiverProvedIff(text: seq<Event>, typed: set<Event>, reference: Dotted, at: Position, target: Dotted,
                          scopes: seq<seq<string>>, p: ReceiverProof)
    requires ValidText(text) && NoDuplicates(text) && reference != []
    ensures ProveReceiver(text, typed, reference, at, target, scopes) == Some(p) <==>
      match p
      case ByImport(proof) =>
        !BoundLocally(text, reference, at, scopes) && Resolve(text, reference, at, target, scopes) == Some(proof)
      case ByBinding(e) =>
        |reference| == 1 && e in typed && exists k: nat ::
          NearestLocal(text, scopes, reference[0], at, k) && OnlyLocal(text, scopes[k], reference[0], at, e)
  {
    hide ResolveReceiver, Resolve, NearestLocal, OnlyLocal;
    ReceiverIff(text, typed, reference[0], at, scopes);
  }

  /** An earlier import of the name in some scope up to the one with a local binding. */
  ghost predicate ImportOnTheWay(text: seq<Event>, name: string, at: Position, scopes: seq<seq<string>>)
    requires ValidText(text)
  {
    scopes != [] &&
    ((exists e :: e in Visible(text, scopes[0], name, at) && !e.binding.Other?) ||
     (Locals(Visible(text, scopes[0], name, at)) == [] && ImportOnTheWay(text, name, at, scopes[1..])))
  }

  lemma {:induction false} LocalsAre(events: seq<Event>)
    ensures forall e :: e in Locals(events) <==> e in events && e.binding.Other?
    ensures (forall e :: e in events ==> e.binding.Other?) <==> Locals(events) == events
    ensures |Locals(events)| <= |events|
  {
    if events != [] {
      var n := |events| - 1;
      LocalsAre(events[..n]);
      assert events == events[..n] + [events[n]];
    }
  }

  lemma {:induction false} ReceiverIsLocal(text: seq<Event>, typed: set<Event>, name: string, at: Position,
                                           scopes: seq<seq<string>>)
    requires ValidText(text) && ResolveReceiver(text, typed, name, at, scopes).0.Some?
    ensures var e := ResolveReceiver(text, typed, name, at, scopes).0.value;
            e in text && e in typed && e.binding.Other? && Sees(e, NamesOf(e.scope), name, at)
  {
    var seen := Visible(text, scopes[0], name, at);
    LocalsAre(seen);
    VisibleIs(text, scopes[0], name, at);
    if Locals(seen) == [] {
      ReceiverIsLocal(text, typed, name, at, scopes[1..]);
    } else {
      assert Locals(seen)[0] in Locals(seen);
    }
  }

  /**
    A receiver proof is about the binding that decides the name exactly when no earlier import of
    the name stands in its scope or a nearer one.
   */
  lemma {:induction false} ReceiverProofDecidesIff(text: seq<Event>, typed: set<Event>, name: string, at: Position,
                                                   scopes: seq<seq<string>>)
    requires ValidText(text) && ResolveReceiver(text, typed, name, at, scopes).0.Some?
    ensures var e := ResolveReceiver(text, typed, name, at, scopes).0.value;
            (DecidingScope(text, name, at, scopes) == Some(NamesOf(e.scope)) &&
             Visible(text, NamesOf(e.scope), name, at) == [e]) <==>
            !ImportOnTheWay(text, name, at, scopes)
  {
    var e := ResolveReceiver(text, typed, name, at, scopes).0.value;
    ReceiverIsLocal(text, typed, name, at, scopes);
    var seen := Visible(text, scopes[0], name, at);
    LocalsAre(seen);
    VisibleIs(text, scopes[0], name, at);
    if Locals(seen) == [] {
      FirstSeen(seen);
      if seen == [] { ReceiverProofDecidesIff(text, typed, name, at, scopes[1..]); }
    } else {
      assert Locals(seen) == [e] && e in Locals(seen);
    }
  }

  /** What the outer scope binds locally decides when the nearer one binds only imports. */
  lemma ReceiverPassesImports(text: seq<Event>, typed: set<Event>, name: string, at: Position, inner: seq<string>,
                              outer: seq<string>, e: Event)
    requires ValidText(text) && Locals(Visible(text, inner, name, at)) == []
    requires Visible(text, outer, name, at) == [e] && e.binding.Other? && e in typed
    ensures ResolveReceiver(text, typed, name, at, [inner, outer]) == (Some(e), true)
  {
    LocalsAre([e]);
    assert [inner, outer][1..] == [outer];
  }

  /** A local import of another symbol of the same name goes unnoticed. */
  lemma ImportShadowsReceiver(mod: Dotted, name: string)
    requires mod != []
    ensures var model := Event([], Position(1, 0), Other(name));
            var imported := Event([Frame(Function, "f", 0)], Position(4, 4), From(0, Some(mod), name, None));
            ValidText([model, imported]) &&
            ResolveReceiver([model, imported], {model}, name, Position(5, 4), [["f"], []]).0 == Some(model) &&
            OwningScope([model, imported], name, [[Frame(Function, "f", 0)], []]) == Some([Frame(Function, "f", 0)])
  {
    hide ResolveReceiver, Locals;
    var f := [Frame(Function, "f", 0)];
    var model, imported := Event([], Position(1, 0), Other(name)),
      Event(f, Position(4, 4), From(0, Some(mod), name, None));
    var at := Position(5, 4);
    assert [model] + [imported] == [model, imported];
    assert NamesOf([]) == [] && NamesOf(f) == ["f"];
    OneEvent(model, ["f"], name, at);
    OneEvent(imported, ["f"], name, at);
    OneEvent(model, [], name, at);
    OneEvent(imported, [], name, at);
    VisibleJoin([model], [imported], ["f"], name, at);
    VisibleJoin([model], [imported], [], name, at);
    LocalsAre([imported]);
    FirstSeen(Locals([imported]));
    ReceiverPassesImports([model, imported], {model}, name, at, ["f"], [], model);
    assert imported in [model, imported] && BindsIn([model, imported], f, name);
  }
}
