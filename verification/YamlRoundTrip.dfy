/** What printed configurations read back as, and when that is what was printed. */
module YamlRoundTrip {
  import opened Text
  import opened YamlScalars
  import opened YamlReader
  import opened YamlPrinter

  // ----- What they read back as -----

  /** Every string inside v is read as a scalar. */
  predicate Readable(v: Value)
  {
    match v
    case Str(s) => ReadString(s).Some?
    case Arr(items) => forall i :: 0 <= i < |items| ==> Readable(items[i])
    case Obj(fields) => forall i :: 0 <= i < |fields| ==> Readable(fields[i].value)
    case _ => true
  }

  predicate ReadableFrom(v: Value, i: nat)
  {
    forall j :: i <= j < |Entries(v)| ==> Readable(Entries(v)[j].value)
  }

  lemma ReadableEntries(v: Value)
    requires IsCollection(v)
    ensures Readable(v) <==> ReadableFrom(v, 0)
  {
    var entries := Entries(v);
    match v {
      case Obj(fields) =>
        assert entries == fields;
      case Arr(items) =>
        assert forall i :: 0 <= i < |items| ==> entries[i].value == items[i];
        if ReadableFrom(v, 0) {
          forall i | 0 <= i < |items| ensures Readable(items[i]) { assert Readable(entries[i].value); }
        }
    }
  }

  /** What a field's readable value becomes. */
  function Norm(v: Value): Value
    decreases v, 2
  {
    match v
    case Null => Null
    case Undefined => Null
    case Bool(_) => v
    case Num(t) => Resolve(t)
    case Str(s) => if ReadString(s).Some? then ReadString(s).value else v
    case Arr(items) =>
      if items == [] then v
      else
        var kept := NormItems(v, 0);
        if kept == [] then Null else Arr(kept)
    case Obj(fields) => if fields == [] then v else Obj(NormFields(v, 0))
  }

  function NormFields(v: Value, i: nat): (r: seq<Field>)
    ensures |r| == if i >= |Entries(v)| then 0 else |Entries(v)| - i
    decreases v, 1, |Entries(v)| - i
  {
    if i >= |Entries(v)| then []
    else [Field(Entries(v)[i].key, Norm(Entries(v)[i].value))] + NormFields(v, i + 1)
  }

  /** An item that is printed: empty collections become null, arrays become objects. */
  function NormItem(item: Value): Value
    decreases item, 3
  {
    if IsCollection(item) then (if Entries(item) == [] then Null else Obj(NormFields(item, 0)))
    else Norm(item)
  }

  /** Null items vanish. */
  function NormItems(v: Value, i: nat): seq<Value>
    requires v.Arr?
    decreases v, 1, |v.items| - i
  {
    if i >= |v.items| then []
    else if IsNothing(v.items[i]) then NormItems(v, i + 1)
    else [NormItem(v.items[i])] + NormItems(v, i + 1)
  }

  // ----- The values considered -----

  predicate IsNumeralChar(c: char)
  {
    '0' <= c <= '9' || c == '+' || c == '-' || c == '.' || c == 'e'
  }

  /** The renderings of JavaScript's numbers. */
  predicate IsJsNumeral(t: string)
  {
    t in {"NaN", "Infinity", "-Infinity"} || (IsNumber(t) && forall i :: 0 <= i < |t| ==> IsNumeralChar(t[i]))
  }

  /** Keys are plain scalars and numbers are rendered as JavaScript does. */
  predicate WellFormed(v: Value)
  {
    match v
    case Num(t) => IsJsNumeral(t)
    case Arr(items) => forall i :: 0 <= i < |items| ==> WellFormed(items[i])
    case Obj(fields) => forall i :: 0 <= i < |fields| ==> IsPlain(fields[i].key) && WellFormed(fields[i].value)
    case _ => true
  }

  lemma NumberIsLong(t: string)
    requires IsNumber(t)
    ensures t != "" && t != "-"
  {
  }

  lemma LettersArePlain(t: string)
    requires t != "" && t != "-"
    requires forall i :: 0 <= i < |t| ==> IsNumeralChar(t[i]) || 'a' <= t[i] <= 'z' || 'A' <= t[i] <= 'Z'
    ensures IsPlain(t)
  {
    assert forall i :: 0 <= i < |t| ==> IsInk(t[i]) && t[i] !in {':', '#'} && (IsIndicator(t[i]) ==> t[i] == '-');
  }

  lemma NameIsPlain(t: string)
    requires t in {"NaN", "Infinity", "-Infinity"}
    ensures IsPlain(t)
  {
    LettersArePlain(t);
  }

  lemma NumeralIsPlain(t: string)
    requires IsJsNumeral(t)
    ensures IsPlain(t)
  {
    if t in {"NaN", "Infinity", "-Infinity"} {
      NameIsPlain(t);
    } else {
      NumberIsLong(t);
      LettersArePlain(t);
    }
  }

  lemma IndexIsPlain(n: nat)
    ensures IsPlain(Decimal(n))
  {
    var t := Decimal(n);
    forall i | 0 <= i < |t| ensures '0' <= t[i] <= '9' { assert t[i] in t; }
  }

  lemma EntryIsWellFormed(v: Value, i: nat)
    requires WellFormed(v) && i < |Entries(v)|
    ensures IsPlain(Entries(v)[i].key) && WellFormed(Entries(v)[i].value)
  {
    if v.Arr? { IndexIsPlain(i); }
  }

  // ----- Reading the lines -----

  function When<T>(ok: bool, value: T): Option<T>
  {
    if ok then Some(value) else None
  }

  lemma PlainReads(t: string)
    requires IsPlain(t)
    ensures Scalar(t) == Some(Resolve(t))
  {
    PlainStarts(t);
  }

  lemma WordReads(t: string)
    requires t in {"null", "true", "false"}
    ensures Scalar(t) == Some(if t == "null" then Null else Bool(t == "true"))
  {
    LettersArePlain(t);
    PlainReads(t);
  }

  lemma {:induction false} InlineReads(v: Value)
    requires WellFormed(v) && Inline(v).Some?
    ensures Scalar(Inline(v).value) == When(Readable(v), Norm(v))
  {
    match v
    case Str(s) => ScalarOfString(s);
    case Num(t) =>
      NumeralIsPlain(t);
      PlainReads(t);
    case Arr(_) =>
    case Obj(_) =>
    case _ => WordReads(Inline(v).value);
  }

  /** No colon of the key ends it. */
  predicate ColonsGoOn(key: string)
  {
    forall i :: 0 <= i < |key| && key[i] == ':' ==> i + 1 < |key| && !IsBlank(key[i+1])
  }

  lemma PlainColons(key: string)
    requires IsPlain(key)
    ensures ColonsGoOn(key)
  {
    forall i | 0 <= i < |key| && key[i] == ':' ensures i + 1 < |key| && !IsBlank(key[i+1]) {
      if i > 0 { assert PlainAt(key, i); }
    }
  }

  lemma {:induction false} KeyEnds(key: string, t: string)
    requires ColonsGoOn(key) && (t == "" || IsBlank(t[0]))
    ensures KeySize(key + ":" + t) == |key|
  {
    var line := key + ":" + t;
    if key == "" {
      assert line[0] == ':' && (t != "" ==> line[1] == t[0]);
    } else {
      assert line[1..] == key[1..] + ":" + t && (|key| > 1 ==> line[1] == key[1]);
      assert forall i :: 0 <= i < |key[1..]| ==> key[1..][i] == key[i+1];
      KeyEnds(key[1..], t);
    }
  }

  lemma KeyReads(key: string, t: string)
    requires IsPlain(key) && (t == "" || t[0] == ' ')
    ensures var line := key + ":" + t;
            !IsDash(line) && ReadKey(line) == Some(KeyLine(key, if t == "" then None else Some(t[1..])))
  {
    var line := key + ":" + t;
    PlainColons(key);
    KeyEnds(key, t);
    assert line[..|key|] == key;
    if t != "" { assert line[|key|+2..] == t[1..]; }
  }

  /** What may follow a mapping whose entries are at 2k, a field at 2k, and an item at 2k. */
  predicate MapEnds(rest: seq<Line>, k: nat)
  {
    rest == [] || rest[0].indent < 2 * k
  }

  predicate FieldEnds(rest: seq<Line>, k: nat)
  {
    MapEnds(rest, k) || (rest[0].indent == 2 * k && !IsDash(rest[0].text))
  }

  predicate ItemEnds(rest: seq<Line>, k: nat)
  {
    rest == [] || rest[0].indent <= 2 * k
  }

  lemma FieldStarts(key: string, value: Value, k: nat)
    requires IsPlain(key)
    ensures var ls := FieldLines(key, value, k); |ls| > 0 && ls[0].indent == 2 * k && !IsDash(ls[0].text)
  {
    match Inline(value) {
      case Some(t) =>
        KeyReads(key, " " + t);
        assert key + ": " + t == key + ":" + (" " + t);
      case None =>
        KeyReads(key, "");
        assert key + ":" + "" == key + ":";
    }
  }

  lemma MapStarts(v: Value, i: nat, k: nat)
    requires WellFormed(v) && i < |Entries(v)|
    ensures var ls := LinesFrom(v, i, k); |ls| > 0 && ls[0].indent == 2 * k && !IsDash(ls[0].text)
  {
    EntryIsWellFormed(v, i);
    FieldStarts(Entries(v)[i].key, Entries(v)[i].value, k);
  }

  lemma ItemStarts(item: Value, k: nat)
    ensures if IsNothing(item) then ItemLines(item, k) == [] else DashAt(ItemLines(item, k), 2 * k)
  {
  }

  predicate NothingFrom(v: Value, i: nat)
    requires v.Arr?
  {
    forall j :: i <= j < |v.items| ==> IsNothing(v.items[j])
  }

  lemma {:induction false} ItemsStart(v: Value, i: nat, k: nat)
    requires v.Arr?
    ensures NothingFrom(v, i) ==> ItemsFrom(v, i, k) == []
    ensures !NothingFrom(v, i) ==> DashAt(ItemsFrom(v, i, k), 2 * k)
    decreases |v.items| - i
  {
    if i < |v.items| {
      ItemsStart(v, i + 1, k);
      ItemStarts(v.items[i], k);
    }
  }

  lemma {:induction false} NothingIsLost(v: Value, i: nat)
    requires v.Arr?
    ensures NothingFrom(v, i) <==> NormItems(v, i) == []
    ensures NothingFrom(v, i) ==> ReadableFrom(v, i)
    decreases |v.items| - i
  {
    if i < |v.items| {
      NothingIsLost(v, i + 1);
      ReadableItems(v, i);
    }
  }

  lemma ReadMapStep(ls: seq<Line>, n: nat, first: Option<(Field, seq<Line>)>, ok: bool, fields: seq<Field>,
                    rest: seq<Line>)
    requires ls != [] && ls[0].indent == n && !IsDash(ls[0].text)
    requires ReadEntry(ls, n) == first
    requires first.Some? ==> ReadMap(first.value.1, n) == When(ok, (fields, rest))
    ensures ReadMap(ls, n) == if first.None? then None else When(ok, ([first.value.0] + fields, rest))
  {
  }

  lemma ReadInlineEntry(key: string, t: string, n: nat, more: seq<Line>)
    requires IsPlain(key)
    ensures ReadEntry([Line(n, key + ": " + t)] + more, n) ==
            match Scalar(t) case None => None case Some(v) => Some((Field(key, v), more))
  {
    KeyReads(key, " " + t);
    assert key + ": " + t == key + ":" + (" " + t);
    assert (" " + t)[1..] == t;
    assert ([Line(n, key + ": " + t)] + more)[1..] == more;
  }

  lemma ReadBlockEntry(key: string, n: nat, more: seq<Line>)
    requires IsPlain(key)
    ensures ReadEntry([Line(n, key + ":")] + more, n) ==
            match ReadBlock(more, n) case None => None case Some((v, rest)) => Some((Field(key, v), rest))
  {
    KeyReads(key, "");
    assert key + ":" + "" == key + ":";
    assert ([Line(n, key + ":")] + more)[1..] == more;
  }

  lemma BlockLines(key: string, v: Value, k: nat, more: seq<Line>)
    requires Inline(v).None?
    ensures FieldLines(key, v, k) + more == [Line(2 * k, key + ":")] + (Block(v, k) + more)
  {
    LinesAssociative([Line(2 * k, key + ":")], Block(v, k), more);
  }

  lemma EntryLines(v: Value, i: nat, k: nat, rest: seq<Line>)
    requires i < |Entries(v)|
    ensures LinesFrom(v, i, k) + rest ==
            FieldLines(Entries(v)[i].key, Entries(v)[i].value, k) + (LinesFrom(v, i + 1, k) + rest)
  {
    LinesAssociative(FieldLines(Entries(v)[i].key, Entries(v)[i].value, k), LinesFrom(v, i + 1, k), rest);
  }

  lemma EntriesEnd(v: Value, i: nat, k: nat, rest: seq<Line>)
    requires WellFormed(v) && MapEnds(rest, k)
    ensures FieldEnds(LinesFrom(v, i, k) + rest, k)
  {
    if i < |Entries(v)| {
      MapStarts(v, i, k);
    } else {
      assert LinesFrom(v, i, k) + rest == rest;
    }
  }

  lemma {:induction false} MapReads(v: Value, i: nat, k: nat, rest: seq<Line>)
    requires WellFormed(v) && MapEnds(rest, k)
    ensures ReadMap(LinesFrom(v, i, k) + rest, 2 * k) == When(ReadableFrom(v, i), (NormFields(v, i), rest))
    decreases v, 1, |Entries(v)| - i
  {
    if i >= |Entries(v)| {
      assert LinesFrom(v, i, k) + rest == rest;
    } else {
      EntryIsWellFormed(v, i);
      EntriesEnd(v, i + 1, k, rest);
      FieldReads(Entries(v)[i].key, Entries(v)[i].value, k, LinesFrom(v, i + 1, k) + rest);
      MapReads(v, i + 1, k, rest);
      EntryLines(v, i, k, rest);
      MapStarts(v, i, k);
      var e, more := Entries(v)[i], LinesFrom(v, i + 1, k) + rest;
      ReadMapStep(LinesFrom(v, i, k) + rest, 2 * k, When(Readable(e.value), (Field(e.key, Norm(e.value)), more)),
                  ReadableFrom(v, i + 1), NormFields(v, i + 1), rest);
      ReadableSplit(v, i);
    }
  }

  lemma ReadableSplit(v: Value, i: nat)
    requires i < |Entries(v)|
    ensures ReadableFrom(v, i) <==> Readable(Entries(v)[i].value) && ReadableFrom(v, i + 1)
  {
  }

  lemma {:induction false} FieldReads(key: string, value: Value, k: nat, more: seq<Line>)
    requires IsPlain(key) && WellFormed(value) && FieldEnds(more, k)
    ensures ReadEntry(FieldLines(key, value, k) + more, 2 * k) == When(Readable(value), (Field(key, Norm(value)), more))
    decreases value, 4
  {
    match Inline(value) {
      case Some(t) =>
        InlineReads(value);
        ReadInlineEntry(key, t, 2 * k, more);
      case None =>
        BlockReads(value, k, more);
        BlockLines(key, value, k, more);
        ReadBlockEntry(key, 2 * k, Block(value, k) + more);
    }
  }

  lemma {:induction false} BlockReads(value: Value, k: nat, more: seq<Line>)
    requires WellFormed(value) && Inline(value).None? && FieldEnds(more, k)
    ensures ReadBlock(Block(value, k) + more, 2 * k) == When(Readable(value), (Norm(value), more))
    decreases value, 3
  {
    ReadableEntries(value);
    var block := Block(value, k);
    if value.Arr? {
      ItemsStart(value, 0, k);
      NothingIsLost(value, 0);
      ItemsRead(value, 0, k, more);
      if block == [] {
        assert block + more == more;
      } else {
        assert DashAt(block + more, 2 * k);
      }
    } else {
      DeeperReads(value, k, more);
      MapStarts(value, 0, k + 1);
    }
  }

  lemma ReadDeeperMap(ls: seq<Line>, n: nat, m: nat, ok: bool, fields: seq<Field>, rest: seq<Line>)
    requires ls != [] && ls[0].indent == m > n && !IsDash(ls[0].text)
    requires ReadMap(ls, m) == When(ok, (fields, rest))
    ensures ReadDeeper(ls, n) == When(ok, (Obj(fields), rest))
  {
  }

  lemma {:induction false} DeeperReads(v: Value, k: nat, more: seq<Line>)
    requires WellFormed(v) && IsCollection(v) && ItemEnds(more, k)
    ensures ReadDeeper(LinesFrom(v, 0, k + 1) + more, 2 * k) ==
            When(Readable(v), (if Entries(v) == [] then Null else Obj(NormFields(v, 0)), more))
    decreases v, 2
  {
    ReadableEntries(v);
    var ls := LinesFrom(v, 0, k + 1) + more;
    if Entries(v) == [] {
      assert ls == more;
    } else {
      MapStarts(v, 0, k + 1);
      MapReads(v, 0, k + 1, more);
      ReadDeeperMap(ls, 2 * k, 2 * k + 2, ReadableFrom(v, 0), NormFields(v, 0), more);
    }
  }

  lemma ReadInlineItem(t: string, n: nat, more: seq<Line>)
    ensures var ls := [Line(n, "- " + t)] + more;
            DashAt(ls, n) &&
            ReadItem(ls, n) == match Scalar(t) case None => None case Some(v) => Some((v, more))
  {
    var ls := [Line(n, "- " + t)] + more;
    assert ls[1..] == more;
    assert ("- " + t)[2..] == t;
  }

  lemma ReadBlockItem(n: nat, more: seq<Line>)
    ensures var ls := [Line(n, "-")] + more; DashAt(ls, n) && ReadItem(ls, n) == ReadDeeper(more, n)
  {
    assert ([Line(n, "-")] + more)[1..] == more;
  }

  lemma ScalarItemReads(item: Value, k: nat, more: seq<Line>)
    requires WellFormed(item) && !IsNothing(item) && !IsCollection(item)
    ensures DashAt(ItemLines(item, k) + more, 2 * k)
    ensures ReadItem(ItemLines(item, k) + more, 2 * k) == When(Readable(item), (Norm(item), more))
  {
    InlineReads(item);
    ReadInlineItem(Inline(item).value, 2 * k, more);
  }

  lemma BlockItemReads(item: Value, k: nat, more: seq<Line>)
    requires IsCollection(item)
    ensures DashAt(ItemLines(item, k) + more, 2 * k)
    ensures ReadItem(ItemLines(item, k) + more, 2 * k) == ReadDeeper(LinesFrom(item, 0, k + 1) + more, 2 * k)
  {
    var dash, block := [Line(2 * k, "-")], LinesFrom(item, 0, k + 1);
    ReadBlockItem(2 * k, block + more);
    LinesAssociative(dash, block, more);
  }

  lemma LinesAssociative(a: seq<Line>, b: seq<Line>, c: seq<Line>)
    ensures a + b + c == a + (b + c)
  {
  }

  lemma {:induction false} ItemReads(item: Value, k: nat, more: seq<Line>)
    requires WellFormed(item) && !IsNothing(item) && ItemEnds(more, k)
    ensures DashAt(ItemLines(item, k) + more, 2 * k)
    ensures ReadItem(ItemLines(item, k) + more, 2 * k) == When(Readable(item), (NormItem(item), more))
    decreases item, 3
  {
    if IsCollection(item) {
      BlockItemReads(item, k, more);
      DeeperReads(item, k, more);
    } else {
      ScalarItemReads(item, k, more);
    }
  }

  lemma ReadSeqStep(ls: seq<Line>, n: nat, first: Option<(Value, seq<Line>)>, ok: bool, items: seq<Value>,
                    rest: seq<Line>)
    requires DashAt(ls, n)
    requires ReadItem(ls, n) == first
    requires first.Some? ==> ReadSeq(first.value.1, n) == When(ok, (items, rest))
    ensures ReadSeq(ls, n) == if first.None? then None else When(ok, ([first.value.0] + items, rest))
  {
  }

  lemma {:induction false} ItemsRead(v: Value, i: nat, k: nat, rest: seq<Line>)
    requires v.Arr? && WellFormed(v) && FieldEnds(rest, k)
    ensures ReadSeq(ItemsFrom(v, i, k) + rest, 2 * k) == When(ReadableFrom(v, i), (NormItems(v, i), rest))
    decreases v, 1, |v.items| - i
  {
    if i >= |v.items| {
      assert ItemsFrom(v, i, k) + rest == rest;
    } else {
      var item, more := v.items[i], ItemsFrom(v, i + 1, k) + rest;
      ItemsRead(v, i + 1, k, rest);
      ItemsLines(v, i, k, rest);
      ReadableItems(v, i);
      if IsNothing(item) {
        assert ItemLines(item, k) + more == more;
      } else {
        ItemsEnd(v, i + 1, k, rest);
        ItemReads(item, k, more);
        ReadSeqStep(ItemLines(item, k) + more, 2 * k, When(Readable(item), (NormItem(item), more)),
                    ReadableFrom(v, i + 1), NormItems(v, i + 1), rest);
      }
    }
  }

  lemma ItemsEnd(v: Value, i: nat, k: nat, rest: seq<Line>)
    requires v.Arr? && FieldEnds(rest, k)
    ensures ItemEnds(ItemsFrom(v, i, k) + rest, k)
  {
    ItemsStart(v, i, k);
    if ItemsFrom(v, i, k) == [] { assert ItemsFrom(v, i, k) + rest == rest; }
  }

  lemma ItemsLines(v: Value, i: nat, k: nat, rest: seq<Line>)
    requires v.Arr? && i < |v.items|
    ensures ItemsFrom(v, i, k) + rest == ItemLines(v.items[i], k) + (ItemsFrom(v, i + 1, k) + rest)
  {
    LinesAssociative(ItemLines(v.items[i], k), ItemsFrom(v, i + 1, k), rest);
  }

  lemma ReadableItems(v: Value, i: nat)
    requires v.Arr? && i < |v.items|
    ensures ReadableFrom(v, i) <==> Readable(v.items[i]) && ReadableFrom(v, i + 1)
  {
    assert Entries(v)[i].value == v.items[i];
  }

  // ----- Documents -----

  lemma KeyLineIsWritten(key: string, t: string, n: nat)
    requires IsPlain(key) && '\n' !in t
    ensures IsWritten(Line(n, key + ":" + t))
  {
    PlainIsWritten(key);
    var text := key + ":" + t;
    assert text[0] == key[0];
    forall c | c in text ensures c != '\n' {
      assert c in key || c == ':' || c in t;
    }
  }

  lemma PlainIsWritten(t: string)
    requires IsPlain(t)
    ensures t[0] != ' ' && '\n' !in t
  {
    forall i | 0 <= i < |t| ensures t[i] != '\n' {
      if i > 0 { assert PlainAt(t, i); }
    }
  }

  lemma {:induction false} JsonHasNoFeed(s: string)
    ensures '\n' !in JsonChars(s)
  {
    if s != "" {
      JsonHasNoFeed(s[1..]);
      JsonCharHasNoFeed(s[0]);
    }
  }

  lemma JsonCharHasNoFeed(c: char)
    ensures '\n' !in JsonChar(c)
  {
    if c < ' ' {
      HexDigitIsNoFeed(c as int / 16);
      HexDigitIsNoFeed(c as int % 16);
    }
  }

  lemma HexDigitIsNoFeed(n: nat)
    requires n < 16
    ensures HexDigit(n) >= '0'
  {
  }

  lemma {:induction false} InlineHasNoFeed(v: Value)
    requires WellFormed(v) && Inline(v).Some?
    ensures '\n' !in Inline(v).value
  {
    match v
    case Str(s) =>
      if NeedsQuotes(s) { JsonHasNoFeed(s); }
    case Num(t) =>
      NumeralIsPlain(t);
      PlainIsWritten(t);
    case _ =>
  }

  predicate AllWritten(ls: seq<Line>)
  {
    forall i :: 0 <= i < |ls| ==> IsWritten(ls[i])
  }

  lemma FieldHead(key: string, value: Value, k: nat)
    requires Inline(value).None?
    ensures FieldLines(key, value, k) == [Line(2 * k, key + ":")] + Block(value, k)
  {
  }

  lemma {:induction false} FieldIsWritten(key: string, value: Value, k: nat)
    requires IsPlain(key) && WellFormed(value)
    ensures AllWritten(FieldLines(key, value, k))
    decreases value, 2
  {
    match Inline(value) {
      case Some(t) =>
        InlineHasNoFeed(value);
        KeyLineIsWritten(key, " " + t, 2 * k);
        assert key + ": " + t == key + ":" + (" " + t);
      case None =>
        KeyLineIsWritten(key, "", 2 * k);
        assert key + ":" + "" == key + ":";
        FieldHead(key, value, k);
        if value.Arr? { ItemsAreWritten(value, 0, k); } else { LinesAreWritten(value, 0, k + 1); }
    }
  }

  lemma {:induction false} LinesAreWritten(v: Value, i: nat, k: nat)
    requires WellFormed(v)
    ensures AllWritten(LinesFrom(v, i, k))
    decreases v, 1, |Entries(v)| - i
  {
    if i < |Entries(v)| {
      EntryIsWellFormed(v, i);
      FieldIsWritten(Entries(v)[i].key, Entries(v)[i].value, k);
      LinesAreWritten(v, i + 1, k);
    }
  }

  lemma {:induction false} ItemIsWritten(item: Value, k: nat)
    requires WellFormed(item)
    ensures AllWritten(ItemLines(item, k))
    decreases item, 2
  {
    if IsCollection(item) {
      LinesAreWritten(item, 0, k + 1);
    } else if !IsNothing(item) {
      InlineHasNoFeed(item);
    }
  }

  lemma {:induction false} ItemsAreWritten(v: Value, i: nat, k: nat)
    requires v.Arr? && WellFormed(v)
    ensures AllWritten(ItemsFrom(v, i, k))
    decreases v, 1, |v.items| - i
  {
    if i < |v.items| {
      ItemIsWritten(v.items[i], k);
      ItemsAreWritten(v, i + 1, k);
    }
  }

  // ----- Document markers -----

  /** The line of such a key is a document marker, unless it is indented. */
  predicate IsMarkerKey(key: string)
  {
    |key| > 3 && IsMarkerText(key)
  }

  predicate NoMarkerKey(v: Value)
  {
    forall i :: 0 <= i < |Entries(v)| ==> !IsMarkerKey(Entries(v)[i].key)
  }

  lemma MarkerConcat(a: seq<Line>, b: seq<Line>)
    ensures HasMarker(a + b) <==> HasMarker(a) || HasMarker(b)
  {
    if HasMarker(a) {
      var i :| 0 <= i < |a| && a[i].indent == 0 && IsMarkerText(a[i].text);
      assert (a + b)[i] == a[i];
    }
    if HasMarker(b) {
      var i :| 0 <= i < |b| && b[i].indent == 0 && IsMarkerText(b[i].text);
      assert (a + b)[|a| + i] == b[i];
    }
  }

  lemma KeyText(key: string, more: string)
    ensures IsMarkerText(key + ":" + more) <==> IsMarkerKey(key)
  {
    var t := key + ":" + more;
    if |key| > 3 {
      assert t[..3] == key[..3] && t[3] == key[3];
    } else if |key| == 3 {
      assert t[3] == ':';
    } else if |t| >= 3 {
      assert t[..3][|key|] == ':';
    }
  }

  lemma OneLine(l: Line)
    ensures HasMarker([l]) <==> l.indent == 0 && IsMarkerText(l.text)
  {
    if HasMarker([l]) {
      var i :| 0 <= i < |[l]| && [l][i].indent == 0 && IsMarkerText([l][i].text);
    }
    if l.indent == 0 && IsMarkerText(l.text) { assert [l][0] == l; }
  }

  lemma DashText(t: string)
    ensures !IsMarkerText("-") && !IsMarkerText("- " + t)
  {
    var s := "- " + t;
    if |s| >= 3 { assert s[..3][1] == ' '; }
  }

  lemma {:induction false} FieldMarker(key: string, value: Value, k: nat)
    ensures HasMarker(FieldLines(key, value, k)) <==> k == 0 && IsMarkerKey(key)
    decreases value, 2
  {
    match Inline(value) {
      case Some(t) =>
        KeyText(key, " " + t);
        assert key + ":" + (" " + t) == key + ": " + t;
        OneLine(Line(2 * k, key + ": " + t));
      case None =>
        KeyText(key, "");
        AddNothing(key + ":");
        FieldHead(key, value, k);
        OneLine(Line(2 * k, key + ":"));
        MarkerConcat([Line(2 * k, key + ":")], Block(value, k));
        if value.Arr? { ItemsMarker(value, 0, k); } else { DeepMarker(value, 0, k + 1); }
    }
  }

  lemma {:induction false} DeepMarker(v: Value, i: nat, k: nat)
    requires k > 0
    ensures !HasMarker(LinesFrom(v, i, k))
    decreases v, 1, |Entries(v)| - i
  {
    if i < |Entries(v)| {
      FieldMarker(Entries(v)[i].key, Entries(v)[i].value, k);
      DeepMarker(v, i + 1, k);
      MarkerConcat(FieldLines(Entries(v)[i].key, Entries(v)[i].value, k), LinesFrom(v, i + 1, k));
    }
  }

  lemma {:induction false} ItemMarker(item: Value, k: nat)
    ensures !HasMarker(ItemLines(item, k))
    decreases item, 2
  {
    if IsCollection(item) {
      DashText("");
      OneLine(Line(2 * k, "-"));
      DeepMarker(item, 0, k + 1);
      MarkerConcat([Line(2 * k, "-")], LinesFrom(item, 0, k + 1));
    } else if !IsNothing(item) {
      DashText(Inline(item).value);
      OneLine(Line(2 * k, "- " + Inline(item).value));
    }
  }

  lemma {:induction false} ItemsMarker(v: Value, i: nat, k: nat)
    requires v.Arr?
    ensures !HasMarker(ItemsFrom(v, i, k))
    decreases v, 1, |v.items| - i
  {
    if i < |v.items| {
      ItemMarker(v.items[i], k);
      ItemsMarker(v, i + 1, k);
      MarkerConcat(ItemLines(v.items[i], k), ItemsFrom(v, i + 1, k));
    }
  }

  /** Printed lines have a document marker exactly where a top-level key makes one. */
  lemma {:induction false} TopMarker(v: Value, i: nat)
    ensures HasMarker(LinesFrom(v, i, 0)) <==> exists j :: i <= j < |Entries(v)| && IsMarkerKey(Entries(v)[j].key)
    decreases |Entries(v)| - i
  {
    if i < |Entries(v)| {
      FieldMarker(Entries(v)[i].key, Entries(v)[i].value, 0);
      TopMarker(v, i + 1);
      MarkerConcat(FieldLines(Entries(v)[i].key, Entries(v)[i].value, 0), LinesFrom(v, i + 1, 0));
    }
  }

  /** What toYaml prints of an object. */
  function Printed(v: Value): string
  {
    TextOfAll(LinesFrom(v, 0, 0))
  }

  /** A printed object reads back as its normal form; nothing reads back when a string is no scalar or
      a key makes its line a document marker. */
  lemma PrintedReadsAsNorm(v: Value)
    requires v.Obj? && WellFormed(v)
    ensures Read(Printed(v)) ==
            if v.fields == [] then Some(Null) else When(Readable(v) && NoMarkerKey(v), Obj(NormFields(v, 0)))
  {
    var ls := LinesFrom(v, 0, 0);
    LinesAreWritten(v, 0, 0);
    ReadText(ls);
    TopMarker(v, 0);
    MapReads(v, 0, 0, []);
    assert ls + [] == ls;
    ReadableEntries(v);
    if v.fields != [] { MapStarts(v, 0, 0); }
  }

  // ----- When that is the object printed -----

  /** Empty, with an indicator other than a dash, with a line feed, or with a blank at an edge. */
  predicate Guarded(s: string)
  {
    s == "" || '\n' in s || (exists c :: c in s && c != '-' && IsIndicator(c)) ||
    IsJsSpace(s[0]) || IsJsSpace(s[|s|-1])
  }

  /** The string is guarded, or plain and not spelled like another value. */
  predicate FaithfulString(s: string)
  {
    Guarded(s) || (IsPlain(s) && Resolve(s).Str?)
  }

  /** The printer quotes exactly the guarded strings. */
  lemma GuardedIsQuoted(s: string)
    ensures NeedsQuotes(s) <==> Guarded(s)
  {
    assert forall c :: IsSpecial(c) <==> c != '-' && IsIndicator(c);
    if s != "" && Guarded(s) && IsTrimmed(s) {
      var i :| 0 <= i < |s| && (s[i] == '\n' || (s[i] != '-' && IsIndicator(s[i])));
    }
  }

  /** A field's value that survives printing and reading. */
  predicate Faithful(v: Value)
  {
    match v
    case Undefined => false
    case Num(t) => IsNumber(t)
    case Str(s) => FaithfulString(s)
    case Arr(items) => forall i :: 0 <= i < |items| ==> FaithfulItem(items[i])
    case Obj(fields) => forall i :: 0 <= i < |fields| ==> Faithful(fields[i].value)
    case _ => true
  }

  /** An item that does: not null, no array, no empty object. */
  predicate FaithfulItem(v: Value)
  {
    match v
    case Null => false
    case Undefined => false
    case Num(t) => IsNumber(t)
    case Str(s) => FaithfulString(s)
    case Arr(_) => false
    case Obj(fields) => fields != [] && forall i :: 0 <= i < |fields| ==> Faithful(fields[i].value)
    case Bool(_) => true
  }

  predicate FaithfulFrom(v: Value, i: nat)
    requires v.Obj?
  {
    forall j :: i <= j < |v.fields| ==> Faithful(v.fields[j].value)
  }

  lemma {:induction false} FieldsSame(v: Value, i: nat)
    requires v.Obj? && WellFormed(v)
    ensures i <= |v.fields| ==> (ReadableFrom(v, i) && NormFields(v, i) == v.fields[i..] <==> FaithfulFrom(v, i))
    decreases v, 1, |v.fields| - i
  {
    if i < |v.fields| {
      var f, rest := v.fields[i], v.fields[i+1..];
      ValueSame(f.value);
      FieldsSame(v, i + 1);
      ReadableSplit(v, i);
      FieldsSplit(v.fields, i, Field(f.key, Norm(f.value)), NormFields(v, i + 1));
    }
  }

  lemma FieldsSplit(fields: seq<Field>, i: nat, f: Field, rest: seq<Field>)
    requires i < |fields|
    ensures [f] + rest == fields[i..] <==> f == fields[i] && rest == fields[i+1..]
  {
    assert ([f] + rest)[0] == f && ([f] + rest)[1..] == rest;
    assert fields[i..][0] == fields[i] && fields[i..][1..] == fields[i+1..];
  }

  lemma ItemsSplit(items: seq<Value>, i: nat, item: Value, rest: seq<Value>)
    requires i < |items|
    ensures [item] + rest == items[i..] <==> item == items[i] && rest == items[i+1..]
  {
    assert ([item] + rest)[0] == item && ([item] + rest)[1..] == rest;
    assert items[i..][0] == items[i] && items[i..][1..] == items[i+1..];
  }

  lemma {:induction false} NormItemsShrinks(v: Value, i: nat)
    requires v.Arr? && i <= |v.items|
    ensures |NormItems(v, i)| <= |v.items| - i
    decreases |v.items| - i
  {
    if i < |v.items| { NormItemsShrinks(v, i + 1); }
  }

  lemma {:induction false} ItemsSame(v: Value, i: nat)
    requires v.Arr? && WellFormed(v) && i <= |v.items|
    ensures ReadableFrom(v, i) && NormItems(v, i) == v.items[i..] <==>
            forall j :: i <= j < |v.items| ==> FaithfulItem(v.items[j])
    decreases v, 1, |v.items| - i
  {
    if i < |v.items| {
      var item := v.items[i];
      ItemSame(item);
      ItemsSame(v, i + 1);
      ReadableItems(v, i);
      NormItemsShrinks(v, i + 1);
      ItemsSplit(v.items, i, NormItem(item), NormItems(v, i + 1));
    }
  }

  lemma {:induction false} ItemSame(item: Value)
    requires WellFormed(item)
    ensures !IsNothing(item) && Readable(item) && NormItem(item) == item <==> FaithfulItem(item)
    decreases item, 3
  {
    if item.Obj? {
      ReadableEntries(item);
      FieldsSame(item, 0);
      assert item.fields[0..] == item.fields;
    } else if !IsNothing(item) && !item.Arr? {
      ValueSame(item);
    }
  }

  lemma {:induction false} ValueSame(v: Value)
    requires WellFormed(v)
    ensures Readable(v) && Norm(v) == v <==> Faithful(v)
    decreases v, 2
  {
    match v {
      case Str(s) => ScalarSame(s);
      case Num(t) => NumberSame(t);
      case Arr(items) =>
        ReadableEntries(v);
        ItemsSame(v, 0);
        assert items[0..] == items;
      case Obj(fields) =>
        ReadableEntries(v);
        FieldsSame(v, 0);
        assert fields[0..] == fields;
      case _ =>
    }
  }

  lemma ScalarSame(s: string)
    ensures ReadString(s) == Some(Str(s)) <==> FaithfulString(s)
  {
    GuardedIsQuoted(s);
  }

  lemma MantissaStarts(m: string)
    requires IsMantissa(m)
    ensures m != "" && ('0' <= m[0] <= '9' || m[0] == '.')
  {
    if !AllDigits(m) {
      var i :| 0 <= i < |m| && m[i] == '.' && AllDigits(m[..i]) && AllDigits(m[i+1..]);
      if i > 0 { assert m[..i][0] == m[0]; }
    }
  }

  lemma NumberStarts(t: string)
    requires IsNumber(t)
    ensures t != "" && ('0' <= t[0] <= '9' || t[0] in {'.', '+', '-'})
  {
    var u := Unsigned(t);
    if IsMantissa(u) {
      MantissaStarts(u);
    } else if i :| 0 <= i < |u| && u[i] in {'e', 'E'} && IsMantissa(u[..i]) && IsExponent(u[i+1..]) {
      MantissaStarts(u[..i]);
      assert u[..i][0] == u[0];
    } else if |t| > 2 {
      assert t[..2][0] == t[0];
    }
  }

  lemma NullWordStarts(t: string)
    requires IsNullWord(t) && t != ""
    ensures t[0] in {'n', 'N', '~'}
  {
  }

  lemma BoolWordStarts(t: string)
    requires IsTrueWord(t) || IsFalseWord(t)
    ensures t != "" && t[0] in {'t', 'T', 'f', 'F'}
  {
  }

  lemma NumberResolves(t: string)
    requires IsNumber(t)
    ensures Resolve(t) == Num(t)
  {
    NumberStarts(t);
    if IsNullWord(t) {
      NullWordStarts(t);
    } else if IsTrueWord(t) || IsFalseWord(t) {
      BoolWordStarts(t);
    }
  }

  lemma NumberSame(t: string)
    requires IsJsNumeral(t)
    ensures Resolve(t) == Num(t) <==> IsNumber(t)
  {
    if IsNumber(t) { NumberResolves(t); }
  }

  /** Printing and reading gives the object back exactly when it has entries, they are faithful, and
      no key at the top makes a document marker. */
  lemma {:induction false} RoundTripIff(v: Value)
    requires v.Obj? && WellFormed(v)
    ensures Read(Printed(v)) == Some(v) <==> v.fields != [] && Faithful(v) && NoMarkerKey(v)
  {
    PrintedReadsAsNorm(v);
    ReadableEntries(v);
    FieldsSame(v, 0);
    assert v.fields[0..] == v.fields;
  }

  lemma {:induction false} OneField(key: string, value: Value)
    requires IsPlain(key) && WellFormed(value)
    ensures Read(Printed(Obj([Field(key, value)]))) ==
            When(Readable(value) && !IsMarkerKey(key), Obj([Field(key, Norm(value))]))
  {
    var v := Obj([Field(key, value)]);
    PrintedReadsAsNorm(v);
    ReadableEntries(v);
    ReadableSplit(v, 0);
    assert Entries(v) == v.fields && ReadableFrom(v, 1);
    assert NormFields(v, 1) == [];
    assert NormFields(v, 0) == [Field(key, Norm(value))];
  }

  /** An array of one null reads back as null. */
  lemma NullItemIsLost(key: string, v: Value)
    requires IsPlain(key) && v == Arr([Null])
    ensures Read(Printed(Obj([Field(key, v)]))) == When(!IsMarkerKey(key), Obj([Field(key, Null)]))
  {
    OneField(key, v);
    assert NormItems(v, 0) == NormItems(v, 1);
  }

  /** A string spelled like another value becomes it, and one that starts like an item does not read back. */
  lemma PlainStringsAreLost(key: string, s: string)
    requires IsPlain(key) && !NeedsQuotes(s)
    ensures Read(Printed(Obj([Field(key, Str(s))]))) ==
            When(IsPlain(s) && !IsMarkerKey(key), Obj([Field(key, Resolve(s))]))
    ensures IsTrueWord(s) ==> Resolve(s) == Bool(true)
    ensures |s| > 1 && s[0] == '-' && s[1] == ' ' ==> !IsPlain(s)
  {
    OneField(key, Str(s));
    if IsTrueWord(s) {
      BoolWordStarts(s);
      if IsNullWord(s) { NullWordStarts(s); }
    }
  }

  /** Plain keys can be document markers. */
  lemma DashesAndBlank()
    ensures IsPlain("--- a") && IsMarkerKey("--- a")
  {
    var t := "--- a";
    assert t[..3] == "---";
  }

  lemma OneFaithful(key: string, value: Value, v: Value)
    requires v == Obj([Field(key, value)]) && IsPlain(key) && WellFormed(value)
    ensures WellFormed(v) && v.fields != [] && (Faithful(v) <==> Faithful(value))
    ensures NoMarkerKey(v) <==> !IsMarkerKey(key)
  {
    assert Entries(v) == v.fields && v.fields[0] == Field(key, value);
  }

  lemma OneRoundTrip(key: string, value: Value)
    requires IsPlain(key) && WellFormed(value) && Faithful(value)
    ensures var v := Obj([Field(key, value)]); Read(Printed(v)) == Some(v) <==> !IsMarkerKey(key)
  {
    var v := Obj([Field(key, value)]);
    OneFaithful(key, value, v);
    RoundTripIff(v);
  }

  /** An object with such a key reads back below another key, but nothing does when it is printed itself. */
  lemma MarkerKeyIsLost(key: string, value: Value, outer: string)
    requires IsPlain(key) && IsMarkerKey(key) && WellFormed(value) && Faithful(value)
    requires IsPlain(outer) && !IsMarkerKey(outer)
    ensures Read(Printed(Obj([Field(key, value)]))) == None
    ensures var v := Obj([Field(outer, Obj([Field(key, value)]))]); Read(Printed(v)) == Some(v)
  {
    OneField(key, value);
    OneFaithful(key, value, Obj([Field(key, value)]));
    OneRoundTrip(outer, Obj([Field(key, value)]));
  }
}
