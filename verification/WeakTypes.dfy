/** The search for any, unknown, object or {} inside a type, through local type aliases. */
module WeakTypes {
  import opened Text

  datatype TypeNode =
    | AnyKeyword
    | UnknownKeyword
    | ObjectKeyword
    | Parenthesized(inner: TypeNode)
    | ArrayType(element: TypeNode)
    | TupleType(elements: seq<TypeNode>)
    | NamedTupleMember(member: TypeNode)
    | UnionOrIntersection(types: seq<TypeNode>)
    | TypeLiteral(members: seq<Member>)
    | TypeOperator(operand: TypeNode)
    | IndexedAccess(objectType: TypeNode, indexType: TypeNode)
    | MappedType(template: Option<TypeNode>)
    | Conditional(check: TypeNode, extends_: TypeNode, whenTrue: TypeNode, whenFalse: TypeNode)
    | FunctionOrConstructor(parameters: seq<Option<TypeNode>>, result: Option<TypeNode>)
    | TypePredicate
    | Reference(name: Option<string>, arguments: seq<TypeNode>)
    | OtherType

  /** Property, method, index, call and construct signatures have a followed type, if written. */
  datatype Member = Signature(signatureType: Option<TypeNode>) | OtherMember

  type Aliases = map<string, TypeNode>

  // ----- What the search follows -----

  /** A type that is weak by itself. */
  predicate IsWeak(t: TypeNode)
  {
    t.AnyKeyword? || t.UnknownKeyword? || t.ObjectKeyword? || t == TypeLiteral([])
  }

  function Unnamed(t: TypeNode): TypeNode
  {
    if t.NamedTupleMember? then t.member else t
  }

  /** The types one step below t in the source text. */
  ghost function Children(t: TypeNode): (r: iset<TypeNode>)
    ensures forall u :: u in r ==> u < t
  {
    match t
    case Parenthesized(u) => iset{u}
    case ArrayType(u) => iset{u}
    case TupleType(es) => iset e | e in es :: if e.NamedTupleMember? then e.member else e
    case UnionOrIntersection(ts) => iset u | u in ts
    case TypeLiteral(ms) => iset m | m in ms && m.Signature? && m.signatureType.Some? :: m.signatureType.value
    case TypeOperator(u) => iset{u}
    case IndexedAccess(o, i) => iset{o, i}
    case MappedType(u) => if u.Some? then iset{u.value} else iset{}
    case Conditional(a, b, c, d) => iset{a, b, c, d}
    case FunctionOrConstructor(ps, r) =>
      (iset p | p in ps && p.Some? :: p.value) + (if r.Some? then iset{r.value} else iset{})
    case Reference(_, args) => iset u | u in args
    case _ => iset{}
  }

  ghost predicate Expands(aliases: Aliases, t: TypeNode, name: string)
  {
    t.Reference? && t.name == Some(name) && name in aliases
  }

  /** Inside Record<string, ...> the search restarts with nothing seen; the claims leave Record out. */
  ghost predicate RecordFree(t: TypeNode)
    decreases t
  {
    (t.Reference? ==> t.name != Some("Record")) && forall u :: u in Children(t) ==> RecordFree(u)
  }

  ghost predicate AllRecordFree(aliases: Aliases)
  {
    forall name :: name in aliases ==> RecordFree(aliases[name])
  }

  // ----- The search -----

  /** containsWeakType; seen holds the aliases expanded on the way to t. */
  predicate ContainsWeakType(t: TypeNode, aliases: Aliases, seen: set<string>)
    requires RecordFree(t) && AllRecordFree(aliases)
    decreases aliases.Keys - seen, t, 1
  {
    match t
    case AnyKeyword => true
    case UnknownKeyword => true
    case ObjectKeyword => true
    case Parenthesized(u) => ContainsWeakType(u, aliases, seen)
    case ArrayType(u) => ContainsWeakType(u, aliases, seen)
    case TupleType(es) => exists e :: e in es && ContainsWeakType(Unnamed(e), aliases, seen)
    case UnionOrIntersection(ts) => exists u :: u in ts && ContainsWeakType(u, aliases, seen)
    case TypeLiteral(ms) =>
      ms == [] ||
      exists m :: m in ms && m.Signature? && m.signatureType.Some? &&
                  ContainsWeakType(m.signatureType.value, aliases, seen)
    case TypeOperator(u) => ContainsWeakType(u, aliases, seen)
    case IndexedAccess(o, i) => ContainsWeakType(o, aliases, seen) || ContainsWeakType(i, aliases, seen)
    case MappedType(u) => u.Some? && ContainsWeakType(u.value, aliases, seen)
    case Conditional(a, b, c, d) =>
      ContainsWeakType(a, aliases, seen) || ContainsWeakType(b, aliases, seen) ||
      ContainsWeakType(c, aliases, seen) || ContainsWeakType(d, aliases, seen)
    case FunctionOrConstructor(ps, r) =>
      (exists p :: p in ps && p.Some? && ContainsWeakType(p.value, aliases, seen)) ||
      (r.Some? && ContainsWeakType(r.value, aliases, seen))
    case TypePredicate => false
    case Reference(name, args) =>
      (exists u :: u in args && ContainsWeakType(u, aliases, seen)) ||
      (name.Some? && name.value in aliases && name.value !in seen &&
       ContainsWeakType(aliases[name.value], aliases, seen + {name.value}))
    case NamedTupleMember(_) => false
    case OtherType => false
  }

  // ----- Reachability -----

  /** One step: to a child in the text, or from a reference to the alias it names. */
  ghost predicate Step(aliases: Aliases, avoid: set<string>, t: TypeNode, u: TypeNode)
  {
    u in Children(t) ||
    exists name :: name !in avoid && Expands(aliases, t, name) && u == aliases[name]
  }

  /** A weak type is n steps away, expanding none of the aliases to avoid. */
  ghost predicate WeakWithin(aliases: Aliases, avoid: set<string>, t: TypeNode, n: nat)
    decreases n
  {
    if n == 0 then IsWeak(t)
    else exists u :: Step(aliases, avoid, t, u) && WeakWithin(aliases, avoid, u, n - 1)
  }

  ghost predicate WeakReachable(aliases: Aliases, t: TypeNode)
  {
    exists n: nat :: WeakWithin(aliases, {}, t, n)
  }

  /** The alias expansions that the search still makes at t. */
  predicate ExpandsToWeak(t: TypeNode, aliases: Aliases, seen: set<string>)
    requires AllRecordFree(aliases)
  {
    t.Reference? && t.name.Some? && t.name.value in aliases && t.name.value !in seen &&
    ContainsWeakType(aliases[t.name.value], aliases, seen + {t.name.value})
  }

  /** The search in terms of the step relation. */
  lemma {:induction false} SearchUnfolds(t: TypeNode, aliases: Aliases, seen: set<string>)
    requires RecordFree(t) && AllRecordFree(aliases)
    ensures ContainsWeakType(t, aliases, seen) <==>
              (IsWeak(t) || ExpandsToWeak(t, aliases, seen) ||
               exists u :: u in Children(t) && ContainsWeakType(u, aliases, seen))
  {
    match t {
      case TupleType(es) =>
        if e :| e in es && ContainsWeakType(Unnamed(e), aliases, seen) { assert Unnamed(e) in Children(t); }
      case TypeLiteral(ms) =>
        if m :|
           m in ms && m.Signature? && m.signatureType.Some? &&
           ContainsWeakType(m.signatureType.value, aliases, seen) {
          assert m.signatureType.value in Children(t);
        }
      case FunctionOrConstructor(ps, r) =>
        if p :| p in ps && p.Some? && ContainsWeakType(p.value, aliases, seen) { assert p.value in Children(t); }
        if r.Some? { assert r.value in Children(t); }
      case Parenthesized(u) => assert u in Children(t);
      case ArrayType(u) => assert u in Children(t);
      case TypeOperator(u) => assert u in Children(t);
      case IndexedAccess(o, i) => assert o in Children(t) && i in Children(t);
      case MappedType(u) => if u.Some? { assert u.value in Children(t); }
      case Conditional(a, b, c, d) =>
        assert a in Children(t) && b in Children(t) && c in Children(t) && d in Children(t);
      case UnionOrIntersection(ts) => assert forall u :: u in Children(t) <==> u in ts;
      case Reference(_, args) => assert forall u :: u in Children(t) <==> u in args;
      case _ => assert Children(t) == iset{};
    }
  }

  lemma {:induction false} AvoidLess(aliases: Aliases, more: set<string>, less: set<string>, t: TypeNode, n: nat)
    requires less <= more && WeakWithin(aliases, more, t, n)
    ensures WeakWithin(aliases, less, t, n)
    decreases n
  {
    if n > 0 {
      var u :| Step(aliases, more, t, u) && WeakWithin(aliases, more, u, n - 1);
      AvoidLess(aliases, more, less, u, n - 1);
      assert Step(aliases, less, t, u);
    }
  }

  /** What the search answers yes to is reachable. */
  lemma {:induction false} SearchIsSound(t: TypeNode, aliases: Aliases, seen: set<string>) returns (n: nat)
    requires RecordFree(t) && AllRecordFree(aliases) && ContainsWeakType(t, aliases, seen)
    ensures WeakWithin(aliases, seen, t, n)
    decreases aliases.Keys - seen, t
  {
    SearchUnfolds(t, aliases, seen);
    if IsWeak(t) {
      n := 0;
    } else if ExpandsToWeak(t, aliases, seen) {
      var name := t.name.value;
      assert name in aliases.Keys - seen;
      var m := SearchIsSound(aliases[name], aliases, seen + {name});
      AvoidLess(aliases, seen + {name}, seen, aliases[name], m);
      assert Expands(aliases, t, name);
      n := StepTo(aliases, seen, t, aliases[name], m);
    } else {
      var u :| u in Children(t) && ContainsWeakType(u, aliases, seen);
      var m := SearchIsSound(u, aliases, seen);
      n := StepTo(aliases, seen, t, u, m);
    }
  }

  lemma StepTo(aliases: Aliases, avoid: set<string>, t: TypeNode, u: TypeNode, m: nat) returns (n: nat)
    requires Step(aliases, avoid, t, u) && WeakWithin(aliases, avoid, u, m)
    ensures WeakWithin(aliases, avoid, t, n)
  {
    n := m + 1;
  }

  /** A route that expands name can be cut so that it starts at its last expansion. */
  lemma {:induction false} CutAtLast(aliases: Aliases, avoid: set<string>, name: string, t: TypeNode, n: nat)
    returns (whole: bool, m: nat)
    requires WeakWithin(aliases, avoid, t, n) && name in aliases
    ensures whole ==> WeakWithin(aliases, avoid + {name}, t, n)
    ensures !whole ==> m < n && WeakWithin(aliases, avoid + {name}, aliases[name], m)
    decreases n
  {
    whole, m := true, 0;
    if n > 0 {
      var u :| Step(aliases, avoid, t, u) && WeakWithin(aliases, avoid, u, n - 1);
      whole, m := CutAtLast(aliases, avoid, name, u, n - 1);
      if whole {
        if Step(aliases, avoid + {name}, t, u) {
        } else {
          assert u == aliases[name];
          whole, m := false, n - 1;
        }
      }
    }
  }

  lemma ChildAnswers(t: TypeNode, u: TypeNode, aliases: Aliases, seen: set<string>)
    requires RecordFree(t) && AllRecordFree(aliases) && u in Children(t)
    ensures ContainsWeakType(u, aliases, seen) ==> ContainsWeakType(t, aliases, seen)
  {
    SearchUnfolds(t, aliases, seen);
  }

  lemma AliasAnswers(t: TypeNode, name: string, aliases: Aliases, seen: set<string>)
    requires RecordFree(t) && AllRecordFree(aliases) && Expands(aliases, t, name) && name !in seen
    ensures ContainsWeakType(aliases[name], aliases, seen + {name}) ==> ContainsWeakType(t, aliases, seen)
  {
    SearchUnfolds(t, aliases, seen);
  }

  /** The search answers yes to everything reachable, cycles between aliases or not. */
  lemma {:induction false} SearchIsComplete(t: TypeNode, aliases: Aliases, seen: set<string>, n: nat)
    requires RecordFree(t) && AllRecordFree(aliases) && WeakWithin(aliases, seen, t, n)
    ensures ContainsWeakType(t, aliases, seen)
    decreases n
  {
    if n == 0 {
      SearchUnfolds(t, aliases, seen);
    } else {
      var u :| Step(aliases, seen, t, u) && WeakWithin(aliases, seen, u, n - 1);
      if u in Children(t) {
        SearchIsComplete(u, aliases, seen, n - 1);
        ChildAnswers(t, u, aliases, seen);
      } else {
        var name :| name !in seen && Expands(aliases, t, name) && u == aliases[name];
        var whole, m := CutAtLast(aliases, seen, name, u, n - 1);
        SearchIsComplete(aliases[name], aliases, seen + {name}, if whole then n - 1 else m);
        AliasAnswers(t, name, aliases, seen);
      }
    }
  }

  /** On every alias map, cyclic or not, the search ends and answers whether a weak type is
      reachable through followed children and alias expansions. */
  lemma SearchIsReachability(t: TypeNode, aliases: Aliases)
    requires RecordFree(t) && AllRecordFree(aliases)
    ensures ContainsWeakType(t, aliases, {}) <==> WeakReachable(aliases, t)
  {
    if ContainsWeakType(t, aliases, {}) {
      var n := SearchIsSound(t, aliases, {});
    }
    if WeakReachable(aliases, t) {
      var n: nat :| WeakWithin(aliases, {}, t, n);
      SearchIsComplete(t, aliases, {}, n);
    }
  }
}
