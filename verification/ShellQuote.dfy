/** Rendering an argv array as one shell command line, and reading it back. */
module ShellQuote {
  import opened Text

  // ----- The renderer -----

  /** replace of every single quote by '\'' */
  function EscapeQuotes(s: string): string
  {
    if s == "" then ""
    else (if s[0] == '\'' then "'\\''" else [s[0]]) + EscapeQuotes(s[1..])
  }

  function Quote(value: string): string
  {
    "'" + EscapeQuotes(value) + "'"
  }

  function QuoteAll(values: seq<string>): seq<string>
  {
    if values == [] then [] else [Quote(values[0])] + QuoteAll(values[1..])
  }

  /** What runFile shows for a file and its arguments. */
  function Render(file: string, args: seq<string>): string
  {
    Join([Quote(file)] + QuoteAll(args), ' ')
  }

  // ----- The reference reader: sections 2.2.1 and 2.2.2 of the POSIX Shell Command Language -----

  /** Characters that mean something to the shell when they are not quoted, other than
      blanks, the backslash and the single quote. A line that uses one is not a simple list of fields. */
  predicate IsSpecial(c: char)
  {
    c in "|&;<>()$`\"*?[#~=%!{}\n"
  }

  /** Outside quotes. field is the field being built, if one has begun. */
  function ReadPlain(s: string, field: Option<string>, fields: seq<string>): Option<seq<string>>
    decreases |s|
  {
    var begun := if field.Some? then field.value else "";
    if s == "" then Some(if field.Some? then fields + [field.value] else fields)
    else if s[0] == ' ' || s[0] == '\t' then
      ReadPlain(s[1..], None, if field.Some? then fields + [field.value] else fields)
    else if s[0] == '\'' then ReadQuoted(s[1..], begun, fields)
    else if s[0] == '\\' then
      if |s| == 1 then None
      else if s[1] == '\n' then ReadPlain(s[2..], field, fields)
      else ReadPlain(s[2..], Some(begun + [s[1]]), fields)
    else if IsSpecial(s[0]) then None
    else ReadPlain(s[1..], Some(begun + [s[0]]), fields)
  }

  /** Between single quotes every character stands for itself. */
  function ReadQuoted(s: string, field: string, fields: seq<string>): Option<seq<string>>
    decreases |s|
  {
    if s == "" then None
    else if s[0] == '\'' then ReadPlain(s[1..], Some(field), fields)
    else ReadQuoted(s[1..], field + [s[0]], fields)
  }

  function Fields(line: string): Option<seq<string>>
  {
    ReadPlain(line, None, [])
  }

  // ----- The round trip -----

  lemma {:induction false} ReadEscaped(v: string, rest: string, field: string, fields: seq<string>)
    ensures ReadQuoted(EscapeQuotes(v) + "'" + rest, field, fields) == ReadPlain(rest, Some(field + v), fields)
    decreases |v|
  {
    var line := EscapeQuotes(v) + "'" + rest;
    if v == "" {
      assert line[1..] == rest;
      assert field + v == field;
    } else {
      var tail := EscapeQuotes(v[1..]) + "'" + rest;
      ReadEscaped(v[1..], rest, field + [v[0]], fields);
      assert field + [v[0]] + v[1..] == field + v;
      if v[0] == '\'' {
        assert line == "'\\''" + tail;
        assert line[1..] == "\\''" + tail;
        assert line[1..][2..] == "'" + tail;
        assert line[1..][2..][1..] == tail;
        assert ReadPlain("'" + tail, Some(field + ['\'']), fields) == ReadQuoted(tail, field + ['\''], fields);
        assert ReadPlain(line[1..], Some(field), fields) == ReadPlain("'" + tail, Some(field + ['\'']), fields);
      } else {
        assert line == [v[0]] + tail;
        assert line[1..] == tail;
      }
    }
  }

  lemma ReadQuote(v: string, rest: string, fields: seq<string>)
    ensures ReadPlain(Quote(v) + rest, None, fields) == ReadPlain(rest, Some(v), fields)
  {
    var line := Quote(v) + rest;
    assert line == "'" + (EscapeQuotes(v) + "'" + rest);
    ReadEscaped(v, rest, "", fields);
    assert "" + v == v;
  }

  lemma {:induction false} ReadAll(first: string, rest: seq<string>, fields: seq<string>)
    ensures ReadPlain(Join([Quote(first)] + QuoteAll(rest), ' '), None, fields) == Some(fields + [first] + rest)
    decreases |rest|
  {
    if rest == [] {
      ReadQuote(first, "", fields);
      assert Quote(first) + "" == Quote(first);
      assert fields + [first] + rest == fields + [first];
    } else {
      var parts := [Quote(first)] + QuoteAll(rest);
      assert parts[1..] == [Quote(rest[0])] + QuoteAll(rest[1..]);
      var more := Join(parts[1..], ' ');
      assert Join(parts, ' ') == Quote(first) + ([' '] + more);
      ReadQuote(first, [' '] + more, fields);
      assert ([' '] + more)[1..] == more;
      ReadAll(rest[0], rest[1..], fields + [first]);
      assert fields + [first] + [rest[0]] + rest[1..] == fields + [first] + rest;
    }
  }

  /** The shown command line splits into exactly the file and every argument, whatever they are. */
  lemma RenderedLineReadsBack(file: string, args: seq<string>)
    ensures Fields(Render(file, args)) == Some([file] + args)
  {
    ReadAll(file, args, []);
    assert [] + [file] + args == [file] + args;
  }
}
