/** The YAML printer for Hermes configurations. */
module YamlPrinter {
  import opened Text
  import opened YamlScalars
  import opened YamlReader

  // ----- The printer -----

  /** Object.entries: an array's keys are its indices. */
  function Entries(v: Value): (r: seq<Field>)
    ensures forall i :: 0 <= i < |r| ==> r[i].value < v
  {
    match v
    case Obj(fields) => fields
    case Arr(items) => seq(|items|, i requires 0 <= i < |items| => Field(Decimal(i), items[i]))
    case _ => []
  }

  function BoolText(b: bool): string
  {
    if b then "true" else "false"
  }

  /** toYaml: its loops append to one string. */
  method ToYaml(v: Value, indent: nat) returns (out: string)
    ensures out == TextOfAll(LinesFrom(v, 0, indent))
    decreases v, 0
  {
    var pad := Spaces(2 * indent);
    var entries := Entries(v);
    out := "";
    ghost var whole := TextOfAll(LinesFrom(v, 0, indent));
    for i := 0 to |entries|
      invariant out + TextOfAll(LinesFrom(v, i, indent)) == whole
    {
      var text := FieldToYaml(entries[i].key, entries[i].value, indent, pad);
      AppendField(v, i, indent, out, text);
      out := out + text;
    }
  }

  lemma AppendField(v: Value, i: nat, k: nat, out: string, text: string)
    requires i < |Entries(v)| && text == TextOfAll(FieldLines(Entries(v)[i].key, Entries(v)[i].value, k))
    ensures out + text + TextOfAll(LinesFrom(v, i + 1, k)) == out + TextOfAll(LinesFrom(v, i, k))
  {
    TextOfConcat(FieldLines(Entries(v)[i].key, Entries(v)[i].value, k), LinesFrom(v, i + 1, k));
    Associative(out, text, TextOfAll(LinesFrom(v, i + 1, k)));
  }

  method FieldToYaml(key: string, value: Value, indent: nat, pad: string) returns (out: string)
    requires pad == Spaces(2 * indent)
    ensures out == TextOfAll(FieldLines(key, value, indent))
    decreases value, 2
  {
    match value {
      case Null => out := pad + key + ": null\n";
      case Undefined => out := pad + key + ": null\n";
      case Arr(items) =>
        if |items| == 0 {
          out := pad + key + ": []\n";
        } else {
          out := ItemsToYaml(value, indent, pad);
          out := pad + key + ":\n" + out;
          FieldBlock(key, value, indent);
          return;
        }
      case Obj(fields) =>
        if |fields| == 0 {
          out := pad + key + ": {}\n";
        } else {
          out := ToYaml(value, indent + 1);
          out := pad + key + ":\n" + out;
          FieldBlock(key, value, indent);
          return;
        }
      case Str(s) => out := pad + key + ": " + YamlString(s) + "\n";
      case Num(t) => out := pad + key + ": " + t + "\n";
      case Bool(b) => out := pad + key + ": " + BoolText(b) + "\n";
    }
    FieldInline(key, value, indent);
  }

  lemma FieldInline(key: string, value: Value, k: nat)
    requires Inline(value).Some?
    ensures TextOfAll(FieldLines(key, value, k)) == Spaces(2 * k) + key + ": " + Inline(value).value + "\n"
  {
    var t := Spaces(2 * k) + (key + ": " + Inline(value).value) + "\n";
    assert t + "" == t;
  }

  lemma FieldBlock(key: string, value: Value, k: nat)
    requires Inline(value).None?
    ensures TextOfAll(FieldLines(key, value, k)) == Spaces(2 * k) + key + ":\n" + TextOfAll(Block(value, k))
  {
    TextOfConcat([Line(2 * k, key + ":")], Block(value, k));
    TextOfOne(Line(2 * k, key + ":"));
  }

  lemma TextOfBlock(l: Line, block: seq<Line>)
    ensures TextOfAll([l] + block) == Spaces(l.indent) + (l.text + "\n") + TextOfAll(block)
  {
    TextOfConcat([l], block);
    TextOfOne(l);
    assert TextOf(l) == Spaces(l.indent) + (l.text + "\n");
  }

  lemma TextOfOne(l: Line)
    ensures TextOfAll([l]) == TextOf(l)
  {
    assert TextOf(l) + "" == TextOf(l);
  }

  method ItemsToYaml(v: Value, indent: nat, pad: string) returns (out: string)
    requires v.Arr?
    requires pad == Spaces(2 * indent)
    ensures out == TextOfAll(ItemsFrom(v, 0, indent))
    decreases v, 1
  {
    out := "";
    for i := 0 to |v.items|
      invariant out + TextOfAll(ItemsFrom(v, i, indent)) == TextOfAll(ItemsFrom(v, 0, indent))
    {
      var text := ItemToYaml(v.items[i], indent, pad);
      AppendItem(v, i, indent, out, text);
      out := out + text;
    }
  }

  lemma AppendItem(v: Value, i: nat, k: nat, out: string, text: string)
    requires v.Arr? && i < |v.items| && text == TextOfAll(ItemLines(v.items[i], k))
    ensures out + text + TextOfAll(ItemsFrom(v, i + 1, k)) == out + TextOfAll(ItemsFrom(v, i, k))
  {
    TextOfConcat(ItemLines(v.items[i], k), ItemsFrom(v, i + 1, k));
    Associative(out, text, TextOfAll(ItemsFrom(v, i + 1, k)));
  }

  method ItemToYaml(item: Value, indent: nat, pad: string) returns (out: string)
    requires pad == Spaces(2 * indent)
    ensures out == TextOfAll(ItemLines(item, indent))
    decreases item, 2
  {
    if IsCollection(item) {
      out := ToYaml(item, indent + 1);
      out := pad + "-\n" + out;
      ItemBlock(item, indent);
    } else if item.Str? {
      out := pad + "- " + YamlString(item.s) + "\n";
      ItemInline(item, indent);
    } else if item.Num? {
      out := pad + "- " + item.text + "\n";
      ItemInline(item, indent);
    } else if item.Bool? {
      out := pad + "- " + BoolText(item.b) + "\n";
      ItemInline(item, indent);
    } else {
      out := "";
    }
  }

  lemma ItemBlock(item: Value, k: nat)
    requires IsCollection(item)
    ensures TextOfAll(ItemLines(item, k)) == Spaces(2 * k) + "-\n" + TextOfAll(LinesFrom(item, 0, k + 1))
  {
    TextOfBlock(Line(2 * k, "-"), LinesFrom(item, 0, k + 1));
  }

  lemma ItemInline(item: Value, k: nat)
    requires !IsNothing(item) && !IsCollection(item)
    ensures TextOfAll(ItemLines(item, k)) == Spaces(2 * k) + "- " + Inline(item).value + "\n"
  {
    TextOfOne(Line(2 * k, "- " + Inline(item).value));
  }

  // ----- The lines it prints -----

  /** The scalar or empty collection printed behind a key. */
  function Inline(v: Value): Option<string>
  {
    match v
    case Null => Some("null")
    case Undefined => Some("null")
    case Bool(b) => Some(BoolText(b))
    case Num(t) => Some(t)
    case Str(s) => Some(YamlString(s))
    case Arr(items) => if items == [] then Some("[]") else None
    case Obj(fields) => if fields == [] then Some("{}") else None
  }

  function FieldLines(key: string, value: Value, k: nat): seq<Line>
    decreases value, 2
  {
    match Inline(value)
    case Some(text) => [Line(2 * k, key + ": " + text)]
    case None => [Line(2 * k, key + ":")] + if value.Arr? then ItemsFrom(value, 0, k) else LinesFrom(value, 0, k + 1)
  }

  function LinesFrom(v: Value, i: nat, k: nat): seq<Line>
    decreases v, 1, |Entries(v)| - i
  {
    if i >= |Entries(v)| then []
    else FieldLines(Entries(v)[i].key, Entries(v)[i].value, k) + LinesFrom(v, i + 1, k)
  }

  predicate IsNothing(v: Value)
  {
    v.Null? || v.Undefined?
  }

  predicate IsCollection(v: Value)
  {
    v.Arr? || v.Obj?
  }

  function ItemLines(item: Value, k: nat): seq<Line>
    decreases item, 2
  {
    if IsNothing(item) then []
    else if IsCollection(item) then [Line(2 * k, "-")] + LinesFrom(item, 0, k + 1)
    else [Line(2 * k, "- " + Inline(item).value)]
  }

  function ItemsFrom(v: Value, i: nat, k: nat): seq<Line>
    requires v.Arr?
    decreases v, 1, |v.items| - i
  {
    if i >= |v.items| then [] else ItemLines(v.items[i], k) + ItemsFrom(v, i + 1, k)
  }

  /** The lines below a key whose line ends there. */
  function Block(v: Value, k: nat): seq<Line>
  {
    if v.Arr? then ItemsFrom(v, 0, k) else LinesFrom(v, 0, k + 1)
  }
}
