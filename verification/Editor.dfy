/**
 The text buffer of the editor (src/editor.cpp): lines in growing character
 arrays, parsed from a text and printed back.
 */
module Editor {
  import opened FileData

  // ---------------------------------------------------------------------
  // Parsing and printing
  // ---------------------------------------------------------------------

  /** A tab becomes four spaces. */
  function Tabbed(c: char): string { if c == '\t' then "    " else [c] }

  function Expanded(s: string): string { if s == "" then "" else Tabbed(s[0]) + Expanded(s[1..]) }

  /** The lines the Page constructor builds from what is left, when `cur` is on the current line. */
  function ParseFrom(s: string, cur: string): (r: seq<string>)
    ensures |r| > 0
    decreases |s|
  {
    if s == "" then [cur]
    else if s[0] != '\n' then ParseFrom(s[1..], cur + Tabbed(s[0]))
    else if s[1..] == "" then [cur]
    else [cur] + ParseFrom(s[1..], "")
  }

  function Parse(s: string): seq<string> { ParseFrom(s, "") }

  /** save_to_buf ends every line with a newline. */
  function Print(lines: seq<string>): string
  {
    if lines == [] then "" else lines[0] + "\n" + Print(lines[1..])
  }

  predicate Ended(s: string) { s != "" && s[|s| - 1] == '\n' }

  predicate Plain(line: string) { '\n' !in line && '\t' !in line }

  /** What saving adds at the end. */
  function Missing(s: string): string { if Ended(s) then "" else "\n" }

  lemma PrintCons(line: string, rest: seq<string>)
    ensures Print([line] + rest) == line + "\n" + Print(rest)
  {
    assert ([line] + rest)[1..] == rest;
  }

  lemma Regroup(a: string, b: string, c: string, d: string)
    ensures a + b + c + d == a + (b + c) + d && a + b + ("" + c + d) == a + (b + c) + d && a + "" == a
  {
    assert "" + c == c;
  }

  lemma ExpandedFirst(s: string)
    requires s != ""
    ensures Expanded(s) == Tabbed(s[0]) + Expanded(s[1..]) && (s[1..] != "" ==> Missing(s) == Missing(s[1..]))
    ensures Expanded("") == ""
  {
  }

  lemma {:induction false} PrintParseFrom(s: string, cur: string)
    ensures Print(ParseFrom(s, cur)) == cur + Expanded(s) + Missing(s)
    decreases |s|
  {
    hide Print, Expanded;
    PrintCons(cur, []);
    assert [cur] + [] == [cur];
    PrintEmpty();
    if s == "" {
      Regroup(cur, "", "", "");
    } else {
      ExpandedFirst(s);
      var rest := Expanded(s[1..]);
      if s[0] != '\n' {
        PrintParseFrom(s[1..], cur + Tabbed(s[0]));
        Regroup(cur, Tabbed(s[0]), rest, Missing(s[1..]));
        assert s[1..] == "" ==> Missing(s) == Missing(s[1..]);
      } else if s[1..] == "" {
        Regroup(cur, "\n", "", "");
      } else {
        PrintParseFrom(s[1..], "");
        PrintCons(cur, ParseFrom(s[1..], ""));
        Regroup(cur, "\n", rest, Missing(s[1..]));
      }
    }
  }

  lemma PrintEmpty()
    ensures Print([]) == "" && Expanded("") == ""
  {
  }

  /** Saving what was loaded gives the text with its tabs expanded, and a final newline where it had none. */
  lemma PrintParse(s: string)
    ensures Print(Parse(s)) == Expanded(s) + Missing(s)
  {
    PrintParseFrom(s, "");
    assert "" + Expanded(s) == Expanded(s);
  }

  lemma {:induction false} ExpandedPlain(s: string)
    requires '\t' !in s
    ensures Expanded(s) == s
  {
    if s != "" {
      ExpandedPlain(s[1..]);
      assert [s[0]] + s[1..] == s;
    }
  }

  lemma {:induction false} ExpandedTabless(s: string)
    ensures '\t' !in Expanded(s)
  {
    if s != "" { ExpandedTabless(s[1..]); }
  }

  /** On a text without tabs that ends its last line, loading and saving changes nothing. */
  lemma PrintParseIdentity(s: string)
    requires '\t' !in s && Ended(s)
    ensures Print(Parse(s)) == s
  {
    PrintParse(s);
    ExpandedPlain(s);
  }

  /** Loading and saving a second time changes nothing. */
  lemma PrintParseIdempotent(s: string)
    ensures Print(Parse(Print(Parse(s)))) == Print(Parse(s))
  {
    PrintParse(s);
    ExpandedTabless(s);
    if Ended(s) { EndedExpanded(s); }
    PrintParseIdentity(Print(Parse(s)));
  }

  lemma {:induction false} EndedExpanded(s: string)
    requires Ended(s)
    ensures Ended(Expanded(s))
  {
    if |s| > 1 { EndedExpanded(s[1..]); }
  }

  lemma {:induction false} ParsePlain(line: string, cur: string, rest: string)
    requires Plain(line)
    ensures ParseFrom(line + rest, cur) == ParseFrom(rest, cur + line)
    decreases |line|
  {
    if line == "" {
      assert line + rest == rest && cur + line == cur;
    } else {
      assert (line + rest)[1..] == line[1..] + rest;
      ParsePlain(line[1..], cur + [line[0]], rest);
      assert cur + [line[0]] + line[1..] == cur + line;
    }
  }

  /** Saved lines load back as the same lines. */
  lemma {:induction false} ParsePrint(lines: seq<string>)
    requires lines != [] && forall k :: 0 <= k < |lines| ==> Plain(lines[k])
    ensures Parse(Print(lines)) == lines
  {
    var rest := Print(lines[1..]);
    assert Print(lines) == lines[0] + ("\n" + rest);
    ParsePlain(lines[0], "", "\n" + rest);
    assert "" + lines[0] == lines[0];
    assert ("\n" + rest)[1..] == rest;
    if lines[1..] == [] {
      assert lines == [lines[0]];
    } else {
      PrintNonempty(lines[1..]);
      ParsePrint(lines[1..]);
      assert lines == [lines[0]] + lines[1..];
    }
  }

  lemma PrintNonempty(lines: seq<string>)
    requires lines != []
    ensures Print(lines) != ""
  {
  }
}
