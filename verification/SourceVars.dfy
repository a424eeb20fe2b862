/** The two loops that decide which test variables hold production paths or source text. */
module SourceVars {
  import opened Text

  /** A file-reading call with an argument: whether the argument looks like a test fixture,
      whether it names a production file itself, and the identifiers it contains. */
  datatype ReadCall = ReadCall(fixture: bool, direct: bool, mentions: set<string>)

  /** What the patterns say about one variable declaration: mentions are the identifiers its
      initializer contains, once with backslashes turned into slashes and once as written. */
  datatype Variable = Variable(
    name: string,
    fixture: bool,
    direct: bool,
    pathLikeName: bool,
    pathMentions: set<string>,
    readCall: Option<ReadCall>,
    textLikeName: bool,
    textDerivation: bool,
    textMentions: set<string>)

  predicate Mentions(identifiers: set<string>, names: set<string>)
  {
    identifiers * names != {}
  }

  // ----- The derivation rules -----

  predicate IsPathVariable(v: Variable, known: set<string>)
  {
    !v.fixture && (v.direct || (v.pathLikeName && Mentions(v.pathMentions, known)))
  }

  predicate IsSourceRead(v: Variable, pathVars: set<string>)
  {
    v.readCall.Some? && !v.readCall.value.fixture &&
    (Mentions(v.readCall.value.mentions, pathVars) || v.readCall.value.direct)
  }

  predicate IsDerivedText(v: Variable, known: set<string>)
  {
    Mentions(v.textMentions, known) && (v.textLikeName || v.textDerivation)
  }

  /** Contains every variable that the path rule yields from it. */
  ghost predicate PathClosed(variables: seq<Variable>, s: set<string>)
  {
    forall v :: v in variables && IsPathVariable(v, s) ==> v.name in s
  }

  /** Contains every source read, and every variable that the text rule yields from it. */
  ghost predicate SourceClosed(variables: seq<Variable>, pathVars: set<string>, s: set<string>)
  {
    forall v :: v in variables && (IsSourceRead(v, pathVars) || IsDerivedText(v, s)) ==> v.name in s
  }

  ghost predicate LeastPathVars(variables: seq<Variable>, s: set<string>)
  {
    PathClosed(variables, s) && forall t :: PathClosed(variables, t) ==> s <= t
  }

  ghost predicate LeastSourceVars(variables: seq<Variable>, pathVars: set<string>, s: set<string>)
  {
    SourceClosed(variables, pathVars, s) && forall t :: SourceClosed(variables, pathVars, t) ==> s <= t
  }

  function Names(variables: seq<Variable>): set<string>
  {
    set v | v in variables :: v.name
  }

  // ----- The loops -----

  method CollectProductionPathVars(variables: seq<Variable>) returns (pathVars: set<string>)
    ensures LeastPathVars(variables, pathVars) && pathVars <= Names(variables)
  {
    pathVars := {};
    var changed := true;
    while changed
      invariant pathVars <= Names(variables)
      invariant forall t :: PathClosed(variables, t) ==> pathVars <= t
      invariant !changed ==> PathClosed(variables, pathVars)
      decreases Names(variables) - pathVars, changed
    {
      changed := false;
      ghost var start := pathVars;
      for i := 0 to |variables|
        invariant start <= pathVars <= Names(variables)
        invariant forall t :: PathClosed(variables, t) ==> pathVars <= t
        invariant changed <==> pathVars != start
        invariant !changed ==> forall k :: 0 <= k < i && IsPathVariable(variables[k], pathVars) ==>
            variables[k].name in pathVars
      {
        var v := variables[i];
        if v.name in pathVars { continue; }
        if !v.fixture && (v.direct || (v.pathLikeName && Mentions(v.pathMentions, pathVars))) {
          forall t | PathClosed(variables, t) ensures v.name in t {
            assert v in variables && IsPathVariable(v, t);
          }
          pathVars := pathVars + {v.name};
          changed := true;
        }
      }
    }
  }

  /** The names whose initializers read production files, in order. */
  function ReadsOf(variables: seq<Variable>, pathVars: set<string>): seq<string>
  {
    if variables == [] then []
    else
      var v := variables[|variables|-1];
      ReadsOf(variables[..|variables|-1], pathVars) + (if IsSourceRead(v, pathVars) then [v.name] else [])
  }

  method CollectSourceVars(variables: seq<Variable>, pathVars: set<string>)
    returns (sourceVars: set<string>, sourceReads: seq<string>)
    ensures LeastSourceVars(variables, pathVars, sourceVars) && sourceVars <= Names(variables)
    ensures sourceReads == ReadsOf(variables, pathVars)
  {
    sourceVars, sourceReads := {}, [];
    for i := 0 to |variables|
      invariant sourceVars <= Names(variables)
      invariant forall t :: SourceClosed(variables, pathVars, t) ==> sourceVars <= t
      invariant forall k :: 0 <= k < i && IsSourceRead(variables[k], pathVars) ==> variables[k].name in sourceVars
      invariant sourceReads == ReadsOf(variables[..i], pathVars)
    {
      assert variables[..i+1][..i] == variables[..i];
      if IsSourceRead(variables[i], pathVars) {
        sourceVars := sourceVars + {variables[i].name};
        sourceReads := sourceReads + [variables[i].name];
      }
    }
    assert variables[..|variables|] == variables;
    ghost var seeds := sourceVars;
    var changed := true;
    while changed
      invariant seeds <= sourceVars <= Names(variables)
      invariant forall t :: SourceClosed(variables, pathVars, t) ==> sourceVars <= t
      invariant !changed ==> SourceClosed(variables, pathVars, sourceVars)
      decreases Names(variables) - sourceVars, changed
    {
      changed := false;
      ghost var start := sourceVars;
      for i := 0 to |variables|
        invariant start <= sourceVars <= Names(variables)
        invariant forall t :: SourceClosed(variables, pathVars, t) ==> sourceVars <= t
        invariant changed <==> sourceVars != start
        invariant !changed ==> forall k :: 0 <= k < i && IsDerivedText(variables[k], sourceVars) ==>
            variables[k].name in sourceVars
      {
        var v := variables[i];
        if v.name in sourceVars { continue; }
        var referencesSource := Mentions(v.textMentions, sourceVars);
        if referencesSource && (v.textLikeName || v.textDerivation) {
          forall t | SourceClosed(variables, pathVars, t) ensures v.name in t {
            assert v in variables && IsDerivedText(v, t);
          }
          sourceVars := sourceVars + {v.name};
          changed := true;
        }
      }
    }
  }

  // ----- The results as derivations -----

  /** A chain of at most n derivations leads to the name. */
  ghost predicate PathDerivable(variables: seq<Variable>, name: string, n: nat)
    decreases n
  {
    exists v :: v in variables && v.name == name && !v.fixture &&
      (v.direct ||
       (n > 0 && v.pathLikeName && exists m :: m in v.pathMentions && PathDerivable(variables, m, n - 1)))
  }

  /** A file-reading call whose argument is no fixture, and names a production file or mentions a
      variable that does. */
  predicate ReadsProduction(v: Variable, pathVars: set<string>)
  {
    match v.readCall
    case None => false
    case Some(ReadCall(fixture, direct, mentions)) =>
      if fixture then false else direct || exists m :: m in mentions && m in pathVars
  }

  lemma ReadsIff(v: Variable, pathVars: set<string>)
    ensures IsSourceRead(v, pathVars) <==> ReadsProduction(v, pathVars)
  {
    if v.readCall.Some? {
      var both := v.readCall.value.mentions * pathVars;
      if both != {} {
        var m :| m in both;
      }
      if m :| m in v.readCall.value.mentions && m in pathVars { assert m in both; }
    }
  }

  ghost predicate SourceDerivable(variables: seq<Variable>, pathVars: set<string>, name: string, n: nat)
    decreases n
  {
    exists v :: v in variables && v.name == name &&
      (ReadsProduction(v, pathVars) ||
       (n > 0 && (v.textLikeName || v.textDerivation) &&
        exists m :: m in v.textMentions && SourceDerivable(variables, pathVars, m, n - 1)))
  }

  /** The reads are listed in the order of the declarations, once for each. */
  lemma {:induction false} ReadsJoin(a: seq<Variable>, b: seq<Variable>, pathVars: set<string>)
    ensures ReadsOf(a + b, pathVars) == ReadsOf(a, pathVars) + ReadsOf(b, pathVars)
    decreases |b|
  {
    if b == [] {
      AddNothing(a);
      AddNothing(ReadsOf(a, pathVars));
    } else {
      var v := b[|b|-1];
      assert (a + b)[..|a + b|-1] == a + b[..|b|-1];
      ReadsJoin(a, b[..|b|-1], pathVars);
      Associative(ReadsOf(a, pathVars), ReadsOf(b[..|b|-1], pathVars),
                  if IsSourceRead(v, pathVars) then [v.name] else []);
    }
  }

  lemma OneRead(v: Variable, pathVars: set<string>)
    ensures ReadsOf([v], pathVars) == if ReadsProduction(v, pathVars) then [v.name] else []
  {
    ReadsIff(v, pathVars);
    assert [v][..0] == [];
  }

  lemma {:induction false} PathDerivableIsClosedOver(variables: seq<Variable>, s: set<string>, name: string, n: nat)
    requires PathClosed(variables, s) && PathDerivable(variables, name, n)
    ensures name in s
    decreases n
  {
    var v :| v in variables && v.name == name && !v.fixture &&
      (v.direct || (n > 0 && v.pathLikeName && exists m :: m in v.pathMentions && PathDerivable(variables, m, n - 1)));
    if !v.direct {
      var m :| m in v.pathMentions && PathDerivable(variables, m, n - 1);
      PathDerivableIsClosedOver(variables, s, m, n - 1);
      assert m in v.pathMentions * s;
    }
  }

  lemma {:induction false} SourceDerivableIsClosedOver(variables: seq<Variable>, pathVars: set<string>,
                                                       s: set<string>, name: string, n: nat)
    requires SourceClosed(variables, pathVars, s) && SourceDerivable(variables, pathVars, name, n)
    ensures name in s
    decreases n
  {
    var v :| v in variables && v.name == name &&
      (ReadsProduction(v, pathVars) ||
       (n > 0 && (v.textLikeName || v.textDerivation) &&
        exists m :: m in v.textMentions && SourceDerivable(variables, pathVars, m, n - 1)));
    ReadsIff(v, pathVars);
    if !ReadsProduction(v, pathVars) {
      var m :| m in v.textMentions && SourceDerivable(variables, pathVars, m, n - 1);
      SourceDerivableIsClosedOver(variables, pathVars, s, m, n - 1);
      assert m in v.textMentions * s;
    }
  }

  /** The path variables are exactly the names that some chain of derivations leads to. */
  lemma PathVarsAreDerivable(variables: seq<Variable>, s: set<string>, name: string)
    requires LeastPathVars(variables, s) && s <= Names(variables)
    ensures name in s <==> exists n: nat :: PathDerivable(variables, name, n)
  {
    if exists n: nat :: PathDerivable(variables, name, n) {
      var n: nat :| PathDerivable(variables, name, n);
      PathDerivableIsClosedOver(variables, s, name, n);
    }
    var derivable := set x | x in Names(variables) && exists n: nat :: PathDerivable(variables, x, n);
    forall v | v in variables && IsPathVariable(v, derivable) ensures v.name in derivable {
      if v.direct {
        assert PathDerivable(variables, v.name, 0);
      } else {
        var m :| m in v.pathMentions * derivable;
        var n: nat :| PathDerivable(variables, m, n);
        assert PathDerivable(variables, v.name, n + 1);
      }
    }
    assert PathClosed(variables, derivable);
    if name in s {
      assert name in derivable;
      assert exists n: nat :: PathDerivable(variables, name, n);
    }
  }

  /** The source variables are exactly the names that some chain of derivations leads to. */
  lemma SourceVarsAreDerivable(variables: seq<Variable>, pathVars: set<string>, s: set<string>, name: string)
    requires LeastSourceVars(variables, pathVars, s) && s <= Names(variables)
    ensures name in s <==> exists n: nat :: SourceDerivable(variables, pathVars, name, n)
  {
    if exists n: nat :: SourceDerivable(variables, pathVars, name, n) {
      var n: nat :| SourceDerivable(variables, pathVars, name, n);
      SourceDerivableIsClosedOver(variables, pathVars, s, name, n);
    }
    var derivable := set x | x in Names(variables) && exists n: nat :: SourceDerivable(variables, pathVars, x, n);
    forall v | v in variables && (IsSourceRead(v, pathVars) || IsDerivedText(v, derivable))
      ensures v.name in derivable
    {
      ReadsIff(v, pathVars);
      if IsSourceRead(v, pathVars) {
        assert SourceDerivable(variables, pathVars, v.name, 0);
      } else {
        var m :| m in v.textMentions * derivable;
        var n: nat :| SourceDerivable(variables, pathVars, m, n);
        assert SourceDerivable(variables, pathVars, v.name, n + 1);
      }
    }
    assert SourceClosed(variables, pathVars, derivable);
    if name in s {
      assert name in derivable;
      assert exists n: nat :: SourceDerivable(variables, pathVars, name, n);
    }
  }

  // ----- Order does not matter -----

  ghost predicate SameDeclarations(a: seq<Variable>, b: seq<Variable>)
  {
    forall v :: v in a <==> v in b
  }

  /** Both results are determined by which declarations there are, in whatever order. */
  lemma OrderIndependent(a: seq<Variable>, b: seq<Variable>, pathA: set<string>, pathB: set<string>,
                         sourceA: set<string>, sourceB: set<string>)
    requires SameDeclarations(a, b)
    requires LeastPathVars(a, pathA) && LeastPathVars(b, pathB)
    requires LeastSourceVars(a, pathA, sourceA) && LeastSourceVars(b, pathB, sourceB)
    ensures pathA == pathB && sourceA == sourceB
  {
    assert PathClosed(b, pathA) && PathClosed(a, pathB);
    assert SourceClosed(b, pathB, sourceA) && SourceClosed(a, pathA, sourceB);
  }
}
