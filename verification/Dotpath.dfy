/** Reading, writing and refusing dotted configuration keys. */
module Dotpath {
  import opened Text
  import opened Documents

  /** How Number() reads a path segment as an array index, if it does. */
  type IndexReader = string -> Option<nat>

  /** The parts of a key between its dots. */
  function Keys(dotpath: string): (keys: seq<string>)
    ensures |keys| > 0
  {
    Split(dotpath, '.')
  }

  lemma KeysAre(dotpath: string)
    ensures Join(Keys(dotpath), '.') == dotpath && forall k :: k in Keys(dotpath) ==> '.' !in k
  {
    JoinSplit(dotpath, '.');
  }

  // ----- Reading -----

  /** One step of a read; None is undefined. */
  function ReadKey(current: Option<Value>, key: string, index: IndexReader): Option<Value>
  {
    match current
    case Some(Arr(items)) =>
      (match index(key)
       case None => None
       case Some(i) => if i < |items| then Some(items[i]) else None)
    case Some(Obj(fields)) => if key in fields then Some(fields[key]) else None
    case _ => None
  }

  function Read(current: Option<Value>, keys: seq<string>, index: IndexReader): Option<Value>
    decreases |keys|
  {
    if keys == [] then current else Read(ReadKey(current, keys[0], index), keys[1..], index)
  }

  /** What a path leads to: a member that every object inherits is found where there is no own one. */
  datatype Found = Missing | Own(value: Value) | Inherited(name: string)

  /** The inherited members are functions, so nothing is read through them. */
  function LookKey(current: Found, key: string, index: IndexReader, inherited: set<string>): Found
  {
    if !current.Own? then Missing
    else
      var own := ReadKey(Some(current.value), key, index);
      if own.Some? then Own(own.value)
      else if current.value.Obj? && key in inherited then Inherited(key)
      else Missing
  }

  function Look(current: Found, keys: seq<string>, index: IndexReader, inherited: set<string>): Found
    decreases |keys|
  {
    if keys == [] then current else Look(LookKey(current, keys[0], index, inherited), keys[1..], index, inherited)
  }

  method ExtractDotpath(obj: Value, dotpath: string, index: IndexReader, inherited: set<string>) returns (r: Found)
    ensures r == Look(Own(obj), Keys(dotpath), index, inherited)
  {
    var keys := Keys(dotpath);
    var current := Own(obj);
    for i := 0 to |keys|
      invariant Look(current, keys[i..], index, inherited) == Look(Own(obj), keys, index, inherited)
    {
      var key := keys[i];
      ghost var rest := keys[i..];
      assert rest[0] == key && rest[1..] == keys[i+1..];
      LookMissing(rest[1..], index, inherited);
      if !current.Own? || current.value.Null? { return Missing; }
      match current.value {
        case Arr(items) =>
          var at := index(key);
          if at == None { return Missing; }
          current := if at.value < |items| then Own(items[at.value]) else Missing;
        case Obj(fields) =>
          current := if key in fields then Own(fields[key])
                     else if key in inherited then Inherited(key)
                     else Missing;
        case _ =>
          return Missing;
      }
    }
    return current;
  }

  lemma {:induction false} LookMissing(keys: seq<string>, index: IndexReader, inherited: set<string>)
    ensures Look(Missing, keys, index, inherited) == Missing
  {
    if keys != [] { LookMissing(keys[1..], index, inherited); }
  }

  lemma {:induction false} ReadUndefined(keys: seq<string>, index: IndexReader)
    ensures Read(None, keys, index) == None
  {
    if keys != [] { ReadUndefined(keys[1..], index); }
  }

  // ----- Writing -----

  /** ensureConfigObjectKey: the object under a key, or a new one in place of anything else. */
  function ObjectUnder(obj: Object, key: string): Object
  {
    if key in obj && obj[key].Obj? then obj[key].fields else map[]
  }

  function Write(obj: Object, keys: seq<string>, value: Value): Object
    requires |keys| > 0
    decreases |keys|
  {
    if |keys| == 1 then obj[keys[0] := value]
    else obj[keys[0] := Obj(Write(ObjectUnder(obj, keys[0]), keys[1..], value))]
  }

  /** setDotpath: a key that ends in a dot, and the empty key, write nothing. */
  function SetDotpath(obj: Object, dotpath: string, value: Value): Object
  {
    var keys := Keys(dotpath);
    if keys[|keys|-1] == "" then obj else Write(obj, keys, value)
  }

  // ----- Refusing -----

  const UNSAFE_KEY_SEGMENTS: set<string> := {"__proto__", "constructor", "prototype", "toString", "hasOwnProperty"}

  method ValidateConfigDotpath(dotpath: string) returns (ok: bool)
    ensures ok <==> forall key :: key in Keys(dotpath) ==> key != "" && key !in UNSAFE_KEY_SEGMENTS
  {
    var keys := Keys(dotpath);
    if dotpath == "" {
      assert keys[0] == "" && keys[0] in keys;
      return false;
    }
    for i := 0 to |keys|
      invariant forall k :: 0 <= k < i ==> keys[k] != "" && keys[k] !in UNSAFE_KEY_SEGMENTS
    {
      assert keys[i] in keys;
      if keys[i] == "" { return false; }
      if keys[i] in UNSAFE_KEY_SEGMENTS { return false; }
    }
    return true;
  }

  predicate IsNumeric(key: string)
  {
    key != "" && forall c :: c in key ==> '0' <= c <= '9'
  }

  /** A segment without any other character than digits. */
  lemma NumericIff(key: string)
    ensures IsNumeric(key) <==> |key| > 0 && !exists i :: 0 <= i < |key| && (key[i] < '0' || key[i] > '9')
  {
    if IsNumeric(key) { assert forall i :: 0 <= i < |key| ==> key[i] in key; }
  }

  /** The part of the key up to segment n, as a refusal names it. */
  lemma PrefixOfKey(dotpath: string, n: nat)
    requires 0 < n <= |Keys(dotpath)|
    ensures Prefix(Keys(dotpath), n) <= dotpath
    ensures Keys(Prefix(Keys(dotpath), n)) == Keys(dotpath)[..n]
  {
    var keys := Keys(dotpath);
    KeysAre(dotpath);
    JoinStarts(keys, n);
    SplitJoin(keys[..n], '.');
  }

  lemma {:induction false} JoinStarts(keys: seq<string>, n: nat)
    requires 0 < n <= |keys|
    ensures Join(keys[..n], '.') <= Join(keys, '.')
  {
    if n > 1 {
      JoinStarts(keys[1..], n - 1);
      assert keys[..n][1..] == keys[1..][..n-1];
    }
  }

  datatype Refusal = NumericSegment(segment: string) | NotAnObject(segment: string, found: Value)

  /** Every value that a write to these keys passes through is an object or missing. */
  predicate PassesObjects(v: Value, keys: seq<string>)
  {
    |keys| <= 1 ||
    (v.Obj? && (keys[0] in v.fields ==> PassesObjects(v.fields[keys[0]], keys[1..]) && v.fields[keys[0]].Obj?))
  }

  /** The first segment that a refusal may name. */
  function Prefix(keys: seq<string>, n: nat): string
    requires n <= |keys|
  {
    Join(keys[..n], '.')
  }

  /** What a refusal says about the path it refuses. */
  ghost predicate Explains(r: Refusal, obj: Value, keys: seq<string>, index: IndexReader)
  {
    match r
    case NumericSegment(segment) =>
      exists i :: 0 <= i < |keys| && IsNumeric(keys[i]) && (forall k :: 0 <= k < i ==> !IsNumeric(keys[k]))
                  && segment == Prefix(keys, i + 1)
    case NotAnObject(segment, found) =>
      (segment == "(root)" && found == obj && !obj.Obj?) ||
      exists i :: 0 < i < |keys| && segment == Prefix(keys, i) && !found.Obj? &&
                  Read(Some(obj), keys[..i], index) == Some(found)
  }

  lemma {:induction false} ReadOneMore(current: Option<Value>, keys: seq<string>, key: string, index: IndexReader)
    ensures Read(current, keys + [key], index) == ReadKey(Read(current, keys, index), key, index)
    decreases |keys|
  {
    if keys == [] {
      assert [] + [key] == [key];
    } else {
      assert (keys + [key])[1..] == keys[1..] + [key];
      ReadOneMore(ReadKey(current, keys[0], index), keys[1..], key, index);
    }
  }

  method FindNumericSegment(keys: seq<string>) returns (at: Option<nat>)
    ensures at == None ==> forall key :: key in keys ==> !IsNumeric(key)
    ensures at.Some? ==>
              at.value < |keys| && IsNumeric(keys[at.value]) && forall k :: 0 <= k < at.value ==> !IsNumeric(keys[k])
  {
    for i := 0 to |keys|
      invariant forall k :: 0 <= k < i ==> !IsNumeric(keys[k])
    {
      if IsNumeric(keys[i]) { return Some(i); }
    }
    return None;
  }

  method FindNonObject(obj: Value, keys: seq<string>, ghost index: IndexReader) returns (r: Option<Refusal>)
    ensures r == None <==> PassesObjects(obj, keys)
    ensures r.Some? ==> r.value.NotAnObject? && Explains(r.value, obj, keys, index)
  {
    if |keys| <= 1 { return None; }
    var current := obj;
    for i := 0 to |keys| - 1
      invariant PassesObjects(current, keys[i..]) <==> PassesObjects(obj, keys)
      invariant i > 0 ==> current.Obj?
      invariant Read(Some(obj), keys[..i], index) == Some(current)
    {
      ghost var rest := keys[i..];
      assert rest[0] == keys[i] && rest[1..] == keys[i+1..] && |rest| > 1;
      if !current.Obj? { return Some(NotAnObject("(root)", current)); }
      if keys[i] !in current.fields { return None; }
      ReadOneMore(Some(obj), keys[..i], keys[i], index);
      assert keys[..i+1] == keys[..i] + [keys[i]];
      var next := current.fields[keys[i]];
      if !next.Obj? { return Some(NotAnObject(Prefix(keys, i + 1), next)); }
      current := next;
    }
    return None;
  }

  method FindClobberingAncestor(obj: Value, dotpath: string, ghost index: IndexReader) returns (r: Option<Refusal>)
    ensures r == None <==> (forall key :: key in Keys(dotpath) ==> !IsNumeric(key)) && PassesObjects(obj, Keys(dotpath))
    ensures r.Some? ==> Explains(r.value, obj, Keys(dotpath), index)
  {
    var keys := Keys(dotpath);
    var numeric := FindNumericSegment(keys);
    if numeric.Some? {
      assert keys[numeric.value] in keys;
      return Some(NumericSegment(Prefix(keys, numeric.value + 1)));
    }
    r := FindNonObject(obj, keys, index);
  }

  // ----- The laws -----

  ghost predicate Writable(obj: Object, dotpath: string)
  {
    && (forall key :: key in Keys(dotpath) ==> key != "" && key !in UNSAFE_KEY_SEGMENTS && !IsNumeric(key))
    && PassesObjects(Obj(obj), Keys(dotpath))
  }

  /** Neither path is a prefix of the other. */
  ghost predicate Apart(a: seq<string>, b: seq<string>)
  {
    !(a <= b) && !(b <= a)
  }

  lemma {:induction false} ReadWritten(obj: Object, keys: seq<string>, value: Value, index: IndexReader)
    requires |keys| > 0
    ensures Read(Some(Obj(Write(obj, keys, value))), keys, index) == Some(value)
    decreases |keys|
  {
    if |keys| > 1 { ReadWritten(ObjectUnder(obj, keys[0]), keys[1..], value, index); }
  }

  lemma {:induction false} ReadElsewhere(obj: Object, keys: seq<string>, other: seq<string>, value: Value,
                                         index: IndexReader)
    requires |keys| > 0 && PassesObjects(Obj(obj), keys) && Apart(keys, other)
    ensures Read(Some(Obj(Write(obj, keys, value))), other, index) == Read(Some(Obj(obj)), other, index)
    decreases |keys|
  {
    assert other != [];
    if other[0] == keys[0] {
      assert keys == [keys[0]] + keys[1..] && other == [other[0]] + other[1..];
      assert |keys| > 1 && Apart(keys[1..], other[1..]);
      var inner := ObjectUnder(obj, keys[0]);
      ReadElsewhere(inner, keys[1..], other[1..], value, index);
      if keys[0] !in obj {
        ReadFromEmpty(other[1..], index);
      }
    }
  }

  lemma ReadFromEmpty(keys: seq<string>, index: IndexReader)
    requires keys != []
    ensures Read(Some(Obj(map[])), keys, index) == None == Read(None, keys, index)
  {
    ReadUndefined(keys, index);
    ReadUndefined(keys[1..], index);
  }

  lemma {:induction false} WriteTwice(obj: Object, keys: seq<string>, first: Value, second: Value)
    requires |keys| > 0
    ensures Write(Write(obj, keys, first), keys, second) == Write(obj, keys, second)
    decreases |keys|
  {
    if |keys| > 1 { WriteTwice(ObjectUnder(obj, keys[0]), keys[1..], first, second); }
  }

  lemma {:induction false} WriteBack(obj: Object, keys: seq<string>, index: IndexReader)
    requires |keys| > 0 && PassesObjects(Obj(obj), keys)
    requires Read(Some(Obj(obj)), keys, index).Some?
    ensures Write(obj, keys, Read(Some(Obj(obj)), keys, index).value) == obj
    decreases |keys|
  {
    if keys[0] !in obj { ReadUndefined(keys[1..], index); }
    if |keys| > 1 { WriteBack(ObjectUnder(obj, keys[0]), keys[1..], index); }
  }

  /** The laws of a write that both checks let through, over every other path at once. */
  lemma DotpathLaws(obj: Object, dotpath: string, value: Value, again: Value, index: IndexReader)
    requires Writable(obj, dotpath)
    ensures var after := SetDotpath(obj, dotpath, value);
            && Read(Some(Obj(after)), Keys(dotpath), index) == Some(value)
            && (forall other: seq<string> :: Apart(Keys(dotpath), other) ==>
                  Read(Some(Obj(after)), other, index) == Read(Some(Obj(obj)), other, index))
            && SetDotpath(after, dotpath, again) == SetDotpath(obj, dotpath, again)
            && Writable(after, dotpath)
    ensures var old_ := Read(Some(Obj(obj)), Keys(dotpath), index);
            old_.Some? ==> SetDotpath(obj, dotpath, old_.value) == obj
  {
    var keys := Keys(dotpath);
    assert keys[|keys|-1] in keys;
    ReadWritten(obj, keys, value, index);
    forall other: seq<string> | Apart(keys, other)
      ensures Read(Some(Obj(Write(obj, keys, value))), other, index) == Read(Some(Obj(obj)), other, index)
    {
      ReadElsewhere(obj, keys, other, value, index);
    }
    WriteTwice(obj, keys, value, again);
    WrittenPasses(obj, keys, value);
    if Read(Some(Obj(obj)), keys, index).Some? { WriteBack(obj, keys, index); }
  }

  lemma {:induction false} WrittenPasses(obj: Object, keys: seq<string>, value: Value)
    requires |keys| > 0
    ensures PassesObjects(Obj(Write(obj, keys, value)), keys)
    decreases |keys|
  {
    if |keys| > 1 { WrittenPasses(ObjectUnder(obj, keys[0]), keys[1..], value); }
  }

  // ----- Members that objects inherit -----

  lemma {:induction false} LookOneMore(current: Found, keys: seq<string>, key: string, index: IndexReader,
                                       inherited: set<string>)
    ensures Look(current, keys + [key], index, inherited) ==
            LookKey(Look(current, keys, index, inherited), key, index, inherited)
    decreases |keys|
  {
    if keys == [] {
      assert [] + [key] == [key];
    } else {
      assert (keys + [key])[1..] == keys[1..] + [key];
      LookOneMore(LookKey(current, keys[0], index, inherited), keys[1..], key, index, inherited);
    }
  }

  /** Own properties are found as they are read. */
  lemma {:induction false} LookIsRead(obj: Value, keys: seq<string>, index: IndexReader, inherited: set<string>)
    ensures Look(Own(obj), keys, index, inherited).Own? <==> Read(Some(obj), keys, index).Some?
    ensures Read(Some(obj), keys, index).Some? ==>
              Look(Own(obj), keys, index, inherited) == Own(Read(Some(obj), keys, index).value)
    decreases |keys|
  {
    if keys != [] {
      var front, last := keys[..|keys|-1], keys[|keys|-1];
      assert keys == front + [last];
      LookIsRead(obj, front, index, inherited);
      LookOneMore(Own(obj), front, last, index, inherited);
      ReadOneMore(Some(obj), front, last, index);
    }
  }

  /** A path leads to an inherited member exactly when its last segment names one that the object
      before it does not have of its own. */
  lemma InheritedIff(obj: Value, keys: seq<string>, index: IndexReader, inherited: set<string>)
    requires keys != []
    ensures var front, last := keys[..|keys|-1], keys[|keys|-1];
            Look(Own(obj), keys, index, inherited).Inherited? <==>
              last in inherited && Read(Some(obj), keys, index).None? &&
              Read(Some(obj), front, index).Some? && Read(Some(obj), front, index).value.Obj?
    ensures Look(Own(obj), keys, index, inherited).Inherited? ==>
              Look(Own(obj), keys, index, inherited).name == keys[|keys|-1]
  {
    var front, last := keys[..|keys|-1], keys[|keys|-1];
    assert keys == front + [last];
    LookIsRead(obj, front, index, inherited);
    LookOneMore(Own(obj), front, last, index, inherited);
    ReadOneMore(Some(obj), front, last, index);
  }

  /** Writing back what was found, a function f where it was inherited, changes nothing if and only
      if it was an own property. */
  lemma WriteBackIff(obj: Object, dotpath: string, f: Value, index: IndexReader, inherited: set<string>)
    requires Writable(obj, dotpath)
    requires Look(Own(Obj(obj)), Keys(dotpath), index, inherited) != Missing
    ensures var found := Look(Own(Obj(obj)), Keys(dotpath), index, inherited);
            SetDotpath(obj, dotpath, if found.Own? then found.value else f) == obj <==> found.Own?
  {
    var keys := Keys(dotpath);
    assert keys[|keys|-1] in keys;
    LookIsRead(Obj(obj), keys, index, inherited);
    ReadWritten(obj, keys, f, index);
    if Read(Some(Obj(obj)), keys, index).Some? { WriteBack(obj, keys, index); }
  }

  /** What a write passes through is an object before it or missing, and an object after it. */
  lemma {:induction false} ReadOnTheWay(obj: Object, keys: seq<string>, value: Value, n: nat, index: IndexReader)
    requires n < |keys| && PassesObjects(Obj(obj), keys)
    ensures var before := Read(Some(Obj(obj)), keys[..n], index);
            var after := Read(Some(Obj(Write(obj, keys, value))), keys[..n], index);
            (before.None? || before.value.Obj?) && after.Some? && after.value.Obj?
    decreases |keys|
  {
    if n > 0 {
      var inner := ObjectUnder(obj, keys[0]);
      assert keys[..n][1..] == keys[1..][..n-1];
      ReadOnTheWay(inner, keys[1..], value, n - 1, index);
      if keys[0] !in obj { ReadUndefined(keys[1..][..n-1], index); }
    }
  }

  /** Every other path leads to the same as before a write, except to an inherited member of an
      object that the write put there. */
  lemma LookElsewhereIff(obj: Object, keys: seq<string>, other: seq<string>, value: Value, index: IndexReader,
                         inherited: set<string>)
    requires |keys| > 0 && PassesObjects(Obj(obj), keys) && Apart(keys, other)
    ensures var front, last := other[..|other|-1], other[|other|-1];
            Look(Own(Obj(Write(obj, keys, value))), other, index, inherited) ==
            Look(Own(Obj(obj)), other, index, inherited) <==>
              !(front < keys && Read(Some(Obj(obj)), front, index).None? && last in inherited)
  {
    var front, last := other[..|other|-1], other[|other|-1];
    var after := Write(obj, keys, value);
    assert other == front + [last];
    ReadElsewhere(obj, keys, other, value, index);
    LookIsRead(Obj(obj), other, index, inherited);
    LookIsRead(Obj(after), other, index, inherited);
    InheritedIff(Obj(obj), other, index, inherited);
    InheritedIff(Obj(after), other, index, inherited);
    ReadOneMore(Some(Obj(obj)), front, last, index);
    if front < keys {
      assert keys[..|front|] == front;
      ReadOnTheWay(obj, keys, value, |front|, index);
    } else {
      assert Apart(keys, front);
      ReadElsewhere(obj, keys, front, value, index);
    }
  }

  lemma ValueOfAccepted()
    ensures Keys("valueOf") == ["valueOf"]
    ensures "valueOf" != "" && "valueOf" !in UNSAFE_KEY_SEGMENTS && !IsNumeric("valueOf")
  {
    SplitAtom("valueOf", '.');
    assert "valueOf"[0] in "valueOf" && "valueOf"[0] == 'v';
    assert |"valueOf"| == 7 && |"__proto__"| == 9 && |"constructor"| == 11 && |"prototype"| == 9 && |"toString"| == 8;
    assert |"hasOwnProperty"| == 14;
  }

  lemma InheritedIsFound(key: string, index: IndexReader)
    ensures Look(Own(Obj(map[])), [key], index, {key}) == Inherited(key)
  {
    assert [key][1..] == [];
  }

  /** An inherited name that is accepted as a key: reading it from an empty document finds the
      member, and writing that back adds a property. */
  lemma InheritedIsWritten(key: string, f: Value, index: IndexReader)
    requires Keys(key) == [key] && key != "" && key !in UNSAFE_KEY_SEGMENTS && !IsNumeric(key)
    ensures Writable(map[], key)
    ensures Look(Own(Obj(map[])), Keys(key), index, {key}) == Inherited(key)
    ensures SetDotpath(map[], key, f) == map[key := f] != map[]
  {
    InheritedIsFound(key, index);
    assert key in map[key := f];
  }

  lemma ValueOfIsWritten(f: Value, index: IndexReader)
    ensures Writable(map[], "valueOf")
    ensures Look(Own(Obj(map[])), Keys("valueOf"), index, {"valueOf"}) == Inherited("valueOf")
    ensures SetDotpath(map[], "valueOf", f) != map[]
  {
    ValueOfAccepted();
    InheritedIsWritten("valueOf", f, index);
  }

  /** Without the second check a write through an array loses the array's elements. */
  lemma ArrayIsClobbered(value: Value, index: IndexReader)
    requires index("0") == Some(0)
    ensures var obj: Object := map["a" := Arr([Null])];
            && Apart(["a", "b"], ["a", "0"])
            && Read(Some(Obj(obj)), ["a", "0"], index) == Some(Null)
            && Read(Some(Obj(Write(obj, ["a", "b"], value))), ["a", "0"], index) == None
  {
    assert ["a", "b"][1..] == ["b"] && ["a", "0"][1..] == ["0"] && ["0"][1..] == [];
    assert ["a", "b"][1] != ["a", "0"][1];
  }
}
