/**
 Line and Page (src/editor.cpp): the buffers themselves. A Line is a pointer and
 a size, copied as such when lines are shifted; no two live lines share a buffer.
 */
module EditorPage {
  import opened FileData
  import opened Editor

  const LINE_SIZE: nat := 128
  const PAGE_SIZE: nat := 500
  const TAB_WIDTH: nat := 4

  datatype Line = Line(line: array<char>, size: nat)

  /** The string is terminated with a character to spare. */
  ghost predicate LineOk(l: Line)
    reads l.line
  {
    l.line.Length == l.size >= 2 && StrLen(l.line[..]) <= l.size - 2
  }

  ghost function Text(l: Line): string
    reads l.line
  {
    l.line[..StrLen(l.line[..])]
  }

  lemma StrLenIs(buf: seq<char>, n: nat)
    requires n < |buf| && buf[n] == '\0' && forall k :: 0 <= k < n ==> buf[k] != '\0'
    ensures StrLen(buf) == n
  {
  }

  lemma StrLenAfter(buf: seq<char>, text: string)
    requires |text| < |buf| && buf[..|text|] == text && '\0' !in text && buf[|text|] == '\0'
    ensures StrLen(buf) == |text| && buf[..StrLen(buf)] == text
  {
    assert forall k :: 0 <= k < |text| ==> buf[k] == text[k];
    StrLenIs(buf, |text|);
  }

  lemma TextClean(buf: seq<char>)
    ensures '\0' !in buf[..StrLen(buf)]
  {
  }

  method NewLine() returns (l: Line)
    ensures fresh(l.line) && LineOk(l) && Text(l) == ""
  {
    var line := new char[LINE_SIZE];
    line[0] := '\0';
    l := Line(line, LINE_SIZE);
    StrLenIs(line[..], 0);
  }

  /** strlen */
  method Length(line: array<char>) returns (n: nat)
    requires StrLen(line[..]) < line.Length
    ensures n == StrLen(line[..])
  {
    n := 0;
    while line[n] != '\0'
      invariant n <= StrLen(line[..])
      decreases StrLen(line[..]) - n
    {
      n := n + 1;
    }
  }

  /** Line::expand */
  method ExpandLine(l: Line) returns (r: Line)
    requires LineOk(l)
    ensures fresh(r.line) && LineOk(r) && r.size == 2 * l.size && Text(r) == Text(l)
  {
    var temp := new char[l.size * 2];
    var n := Length(l.line);
    forall k | 0 <= k <= n { temp[k] := l.line[k]; }
    r := Line(temp, l.size * 2);
    TextClean(l.line[..]);
    StrLenAfter(temp[..], l.line[..n]);
  }

  /** Elements from `index` up to `n` move one place up. */
  method ShiftUp<T>(a: array<T>, n: nat, index: nat)
    requires index <= n < a.Length
    modifies a
    ensures forall k :: 0 <= k < index ==> a[k] == old(a[k])
    ensures forall k :: index <= k < n ==> a[k + 1] == old(a[k])
  {
    var i := n;
    while i > index
      invariant index <= i <= n
      invariant forall k :: 0 <= k < i ==> a[k] == old(a[k])
      invariant forall k :: i <= k < n ==> a[k + 1] == old(a[k])
    {
      i := i - 1;
      a[i + 1] := a[i];
    }
  }

  /** Line::insert_char */
  method InsertChar(l: Line, c: char, index: nat) returns (r: Line)
    requires LineOk(l) && c != '\0' && index <= |Text(l)|
    modifies l.line
    ensures LineOk(r) && (r.line == l.line || fresh(r.line))
    ensures Text(r) == old(Text(l))[..index] + [c] + old(Text(l))[index..]
  {
    hide StrLen;
    r := l;
    var n := Length(r.line);
    if n >= r.size - 2 {
      r := ExpandLine(l);
    }
    ghost var text, was := Text(l), r.line[..];
    TextClean(was);
    n := Length(r.line);
    ShiftUp(r.line, n + 1, index);
    r.line[index] := c;
    Inserted(was, n, r.line[..], c, index, text);
  }

  lemma Inserted(was: seq<char>, n: nat, buf: seq<char>, c: char, index: nat, text: string)
    requires index <= n && n + 1 < |was| == |buf| && was[..n] == text && '\0' !in text && was[n] == '\0' && c != '\0'
    requires forall k :: 0 <= k < index ==> buf[k] == was[k]
    requires forall k :: index < k <= n + 1 ==> buf[k] == was[k - 1]
    requires buf[index] == c
    ensures StrLen(buf) == n + 1 && buf[..StrLen(buf)] == text[..index] + [c] + text[index..]
  {
    hide StrLen;
    var text' := text[..index] + [c] + text[index..];
    forall k | 0 <= k < |text'| ensures buf[k] == text'[k] {
      if k > index { assert text'[k] == text[k - 1] == was[k - 1]; }
    }
    assert buf[..|text'|] == text';
    StrLenAfter(buf, text');
  }

  /** Line::remove_char */
  method RemoveChar(l: Line, index: nat)
    requires LineOk(l) && index < |Text(l)|
    modifies l.line
    ensures LineOk(l) && Text(l) == old(Text(l))[..index] + old(Text(l))[index + 1..]
  {
    hide StrLen;
    ghost var text := Text(l);
    ghost var was := l.line[..];
    TextClean(l.line[..]);
    var len := Length(l.line);
    for i := index to len
      invariant forall k :: 0 <= k < index ==> l.line[k] == was[k]
      invariant forall k :: index <= k < i ==> l.line[k] == was[k + 1]
      invariant forall k :: i <= k < l.line.Length ==> l.line[k] == was[k]
    {
      l.line[i] := l.line[i + 1];
    }
    StrLenAfter(l.line[..], text[..index] + text[index + 1..]);
  }

  /** The lines say these strings, each in a buffer of its own. */
  ghost predicate Shown(ls: seq<Line>, said: seq<string>, live: set<array<char>>)
    reads live
  {
    && |ls| == |said|
    && (forall i :: 0 <= i < |ls| ==> ls[i].line in live)
    && (forall i :: 0 <= i < |ls| ==> LineOk(ls[i]) && Text(ls[i]) == said[i])
    && (forall i, j :: 0 <= i < j < |ls| ==> ls[i].line != ls[j].line)
  }

  lemma ShownInsert(ls: seq<Line>, said: seq<string>, live: set<array<char>>, l: Line, index: nat)
    requires Shown(ls, said, live) && index <= |ls| && LineOk(l) && Text(l) == "" && l.line !in live
    ensures Shown(ls[..index] + [l] + ls[index..], said[..index] + [""] + said[index..], live + {l.line})
  {
    hide LineOk, Text;
  }

  /** A shifted array with the gap filled reads as an insertion. */
  lemma InsertedAt<T>(now: seq<T>, was: seq<T>, x: T, index: nat)
    requires index <= |was| && |now| == |was| + 1 && now[index] == x
    requires forall k :: 0 <= k < index ==> now[k] == was[k]
    requires forall k :: index <= k < |was| ==> now[k + 1] == was[k]
    ensures now == was[..index] + [x] + was[index..]
  {
    forall k | index < k < |now| ensures now[k] == was[k - 1] { assert now[(k - 1) + 1] == was[k - 1]; }
  }

  lemma ShownAt(ls: seq<Line>, said: seq<string>, live: set<array<char>>, i: nat)
    requires Shown(ls, said, live) && i < |ls|
    ensures ls[i].line in live && LineOk(ls[i]) && i < |said| && Text(ls[i]) == said[i]
  {
    hide LineOk, Text;
  }

  lemma ShownRemove(ls: seq<Line>, said: seq<string>, live: set<array<char>>, index: nat)
    requires Shown(ls, said, live) && index < |ls|
    ensures Shown(ls[..index] + ls[index + 1..], said[..index] + said[index + 1..], live)
  {
    hide LineOk, Text;
  }

  // ---------------------------------------------------------------------
  // Loading a text
  // ---------------------------------------------------------------------

  ghost function Blank(n: nat): seq<string> { seq(n, _ => "") }

  /** 500 default lines, each with its own buffer. */
  method DefaultLines() returns (text: array<Line>, ghost live: set<array<char>>)
    ensures fresh(text) && fresh(live) && text.Length == PAGE_SIZE && Shown(text[..], Blank(PAGE_SIZE), live)
  {
    hide LineOk, Text;
    var first := NewLine();
    text := new Line[PAGE_SIZE](_ => first);
    live := {first.line};
    for i := 1 to PAGE_SIZE
      invariant fresh(live) && fresh(text) && Shown(text[..i], Blank(i), live)
    {
      var l := NewLine();
      ghost var was := text[..i];
      ShownInsert(was, Blank(i), live, l, i);
      text[i] := l;
      live := live + {l.line};
      assert text[..i + 1] == was[..i] + [l] + was[i..];
      assert Blank(i + 1) == Blank(i)[..i] + [""] + Blank(i)[i..];
    }
    assert text[..PAGE_SIZE] == text[..];
  }

  /** add_char on one of the lines. */
  method AddChar(text: array<Line>, row: nat, c: char, ghost said: seq<string>, ghost live: set<array<char>>)
    returns (ghost live': set<array<char>>)
    requires Shown(text[..], said, live) && row < text.Length && row < |said| && c != '\0'
    modifies text, live
    ensures Shown(text[..], said[row := said[row] + [c]], live') && fresh(live' - live) && live <= live'
  {
    hide StrLen;
    var n := Length(text[row].line);
    var l := InsertChar(text[row], c, n);
    text[row] := l;
    live' := live + {l.line};
    assert said[row][..n] + [c] + said[row][n..] == said[row] + [c];
  }

  method AddTabbed(text: array<Line>, row: nat, c: char, ghost said: seq<string>, ghost live: set<array<char>>)
    returns (ghost live': set<array<char>>)
    requires Shown(text[..], said, live) && row < text.Length && row < |said| && c != '\0'
    modifies text, live
    ensures Shown(text[..], said[row := said[row] + Tabbed(c)], live') && fresh(live' - live) && live <= live'
  {
    hide Shown;
    if c != '\t' {
      live' := AddChar(text, row, c, said, live);
    } else {
      live' := live;
      ghost var now := said;
      assert said[row] + Tabbed(c)[..0] == said[row];
      for i := 0 to TAB_WIDTH
        invariant Shown(text[..], now, live') && fresh(live' - live) && live <= live'
        invariant now == said[row := said[row] + Tabbed(c)[..i]]
      {
        live' := AddChar(text, row, ' ', now, live');
        now := now[row := now[row] + " "];
        assert said[row] + Tabbed(c)[..i] + " " == said[row] + Tabbed(c)[..i + 1];
      }
      assert Tabbed(c)[..TAB_WIDTH] == Tabbed(c);
    }
  }

  /** The character at `k`, the terminator past the end. */
  function CharAt(buf: string, k: nat): char { if k < |buf| then buf[k] else '\0' }

  lemma ParseTurn(buf: string, k: nat, cur: string)
    requires k <= |buf| && '\0' !in buf
    ensures CharAt(buf, k) == '\0' ==> ParseFrom(buf[k..], cur) == [cur] && k == |buf|
    ensures CharAt(buf, k) == '\n' ==> (k < |buf| &&
      ParseFrom(buf[k..], cur) == if k + 1 == |buf| then [cur] else [cur] + ParseFrom(buf[k + 1..], ""))
    ensures CharAt(buf, k) != '\0' && CharAt(buf, k) != '\n' ==> (k < |buf| &&
      ParseFrom(buf[k..], cur) == ParseFrom(buf[k + 1..], cur + Tabbed(buf[k])))
  {
    if k < |buf| { assert buf[k..][1..] == buf[k + 1..]; }
  }

  /** One line of the text, up to its newline or to the end. */
  method LoadLine(text: array<Line>, row: nat, buf: string, from: nat, ghost said: seq<string>,
                  ghost live: set<array<char>>)
    returns (now: nat, ch: char, ghost said': seq<string>, ghost live': set<array<char>>)
    requires Shown(text[..], said, live) && row < text.Length && row < |said| && said[row] == ""
    requires from < |buf| && '\0' !in buf
    modifies text, live
    ensures Shown(text[..], said', live') && fresh(live' - live) && live <= live'
    ensures |said'| == |said| && forall i :: 0 <= i < |said| && i != row ==> said'[i] == said[i]
    ensures from < now && (ch == '\n' || ch == '\0')
    ensures now >= |buf| || ch == '\0' ==> ParseFrom(buf[from..], "") == [said'[row]]
    ensures now < |buf| && ch == '\n' ==> ParseFrom(buf[from..], "") == [said'[row]] + ParseFrom(buf[now..], "")
    ensures ch == '\n' ==> now <= |buf|
  {
    hide Shown, ParseFrom;
    said', live' := said, live;
    ch := CharAt(buf, from);
    now := from + 1;
    while ch != '\n' && ch != '\0'
      invariant Shown(text[..], said', live') && fresh(live' - live) && live <= live'
      invariant |said'| == |said| && forall i :: 0 <= i < |said| && i != row ==> said'[i] == said[i]
      invariant from < now <= |buf| + 1 && ch == CharAt(buf, now - 1)
      invariant ParseFrom(buf[from..], "") == ParseFrom(buf[now - 1..], said'[row])
      decreases |buf| + 1 - now
    {
      ParseTurn(buf, now - 1, said'[row]);
      live' := AddTabbed(text, row, ch, said', live');
      said' := said'[row := said'[row] + Tabbed(ch)];
      ch := CharAt(buf, now);
      now := now + 1;
    }
    ParseTurn(buf, now - 1, said'[row]);
  }

  /** The loop over the lines; the page must have a slot for each. */
  method Load(text: array<Line>, buf: string, ghost live: set<array<char>>)
    returns (n: nat, ghost said: seq<string>, ghost live': set<array<char>>)
    requires text.Length == PAGE_SIZE && Shown(text[..], Blank(PAGE_SIZE), live)
    requires '\0' !in buf && |Parse(buf)| <= PAGE_SIZE
    modifies text, live
    ensures Shown(text[..], said, live') && fresh(live' - live) && live <= live'
    ensures 0 < n <= |said| == PAGE_SIZE && said[..n] == Parse(buf)
  {
    hide Shown, ParseFrom;
    said, live', n := Blank(PAGE_SIZE), live, 0;
    if |buf| == 0 {
      ParseTurn(buf, 0, "");
      return 1, said, live';
    }
    var ch, now := '\n', 0;
    assert buf[0..] == buf;
    while now < |buf| && ch != '\0'
      invariant Shown(text[..], said, live') && fresh(live' - live) && live <= live'
      invariant |said| == PAGE_SIZE && n <= PAGE_SIZE && (n > 0 || now == 0)
      invariant ch == '\n' || ch == '\0'
      invariant now < |buf| && ch != '\0' ==> Parse(buf) == said[..n] + ParseFrom(buf[now..], "")
      invariant !(now < |buf| && ch != '\0') ==> Parse(buf) == said[..n]
      invariant forall i :: n <= i < PAGE_SIZE ==> said[i] == ""
      decreases |buf| - now
    {
      ghost var before := said[..n];
      LinesLeft(Parse(buf), before, ParseFrom(buf[now..], ""));
      now, ch, said, live' := LoadLine(text, n, buf, now, said, live');
      assert said[..n + 1] == before + [said[n]];
      n := n + 1;
    }
  }

  /** A line still to come needs a slot. */
  lemma LinesLeft(all: seq<string>, done: seq<string>, rest: seq<string>)
    requires all == done + rest && |rest| > 0
    ensures |done| < |all|
  {
  }

  lemma ShownPrefix(ls: seq<Line>, said: seq<string>, live: set<array<char>>, n: nat)
    requires Shown(ls, said, live) && n <= |ls| && n <= |said|
    ensures Shown(ls[..n], said[..n], live)
  {
    hide LineOk, Text;
  }

  method WriteLine(l: Line, buf: string, ghost said: string) returns (buf': string)
    requires LineOk(l) && Text(l) == said
    ensures buf' == buf + said
  {
    buf' := buf;
    var col := 0;
    while l.line[col] != '\0'
      invariant 0 <= col <= StrLen(l.line[..]) && buf' == buf + l.line[..col]
      decreases StrLen(l.line[..]) - col
    {
      buf' := buf' + [l.line[col]];
      col := col + 1;
    }
  }

  class Page {
    var text: array<Line>
    var numlines: nat
    var size: nat
    /** What the live lines say, and the buffers they say it in. */
    ghost var lines: seq<string>
    ghost var live: set<array<char>>

    ghost predicate Valid()
      reads this, text, live
    {
      text.Length == size && 0 < numlines <= size && Shown(text[..numlines], lines, live)
    }

    /** A text of at most 500 lines. */
    constructor (buf: string)
      requires '\0' !in buf && |Parse(buf)| <= PAGE_SIZE
      ensures Valid() && fresh(text) && fresh(live) && lines == Parse(buf)
    {
      hide Shown, Parse;
      var blank;
      ghost var fill;
      blank, fill := DefaultLines();
      text := blank;
      size, numlines, lines, live := PAGE_SIZE, 0, [], {};
      new;
      ghost var said, bufs;
      numlines, said, bufs := Load(text, buf, fill);
      ShownPrefix(text[..], said, bufs, numlines);
      assert text[..][..numlines] == text[..numlines];
      lines, live := said[..numlines], bufs;
    }

    /** save_to_buf; the terminator after the text is not part of the result. */
    method SaveToBuf() returns (buf: string)
      requires Valid()
      ensures buf == Print(lines)
    {
      hide Shown, LineOk, Text;
      ShownLength(text[..numlines], lines, live);
      buf := "";
      for row := 0 to numlines
        invariant buf + Print(lines[row..]) == Print(lines)
      {
        PrintCons(lines[row], lines[row + 1..]);
        assert lines[row..] == [lines[row]] + lines[row + 1..];
        assert lines[row..][1..] == lines[row + 1..];
        ShownAt(text[..numlines], lines, live, row);
        buf := WriteLine(text[row], buf, lines[row]);
        buf := buf + "\n";
      }
    }

    /** Page::expand */
    method Expand()
      requires Valid()
      modifies this`text, this`size
      ensures Valid() && size == 2 * old(size) && fresh(text)
      ensures numlines == old(numlines) && lines == old(lines) && live == old(live)
    {
      hide Shown;
      ghost var ls := text[..numlines];
      var spare := NewLine();
      var bigger := new Line[size * 2](_ => spare);
      forall i | 0 <= i < size { bigger[i] := text[i]; }
      assert Shown(ls, lines, live);
      text, size := bigger, size * 2;
      assert text[..numlines] == ls;
    }

    method InsertLine(index: nat)
      requires Valid() && index <= numlines
      modifies this, text
      ensures Valid() && lines == old(lines)[..index] + [""] + old(lines)[index..]
      ensures fresh(text) || text == old(text)
      ensures fresh(live - old(live))
    {
      hide LineOk, Text, Shown;
      ShownLength(text[..numlines], lines, live);
      if numlines >= size {
        Expand();
      }
      var newline := NewLine();
      ghost var was := text[..numlines];
      ShownInsert(was, lines, live, newline, index);
      ShiftUp(text, numlines, index);
      text[index] := newline;
      numlines := numlines + 1;
      InsertedAt(text[..numlines], was, newline, index);
      lines := lines[..index] + [""] + lines[index..];
      live := live + {newline.line};
    }

    method RemoveLine(index: nat)
      requires Valid() && index < numlines
      modifies this, text
      ensures Valid() && text == old(text) && live == old(live)
      ensures lines == if |old(lines)| > 1 then old(lines)[..index] + old(lines)[index + 1..] else old(lines)
    {
      hide LineOk, Text, Shown;
      ShownLength(text[..numlines], lines, live);
      if numlines > 1 {
        ghost var was := text[..numlines];
        ShownRemove(was, lines, live, index);
        for i := index to numlines - 1
          invariant text == old(text) && live == old(live) && numlines == old(numlines) && lines == old(lines) && size == old(size)
          invariant forall k :: 0 <= k < index ==> text[k] == was[k]
          invariant forall k :: index <= k < i ==> text[k] == was[k + 1]
          invariant forall k :: i <= k < numlines ==> text[k] == was[k]
        {
          text[i] := text[i + 1];
        }
        numlines := numlines - 1;
        assert text[..numlines] == was[..index] + was[index + 1..];
        lines := lines[..index] + lines[index + 1..];
      }
    }

    method InsertCharAt(row: nat, col: nat, c: char)
      requires Valid() && row < numlines && row < |lines| && col <= |lines[row]| && c != '\0'
      modifies this, text, live
      ensures Valid() && text == old(text) && size == old(size) && fresh(live - old(live))
      ensures lines == old(lines)[row := old(lines)[row][..col] + [c] + old(lines)[row][col..]]
    {
      hide LineOk, StrLen;
      ghost var said := lines[row];
      var l := InsertChar(text[row], c, col);
      text[row] := l;
      live := live + {l.line};
      lines := lines[row := said[..col] + [c] + said[col..]];
    }

    method RemoveCharAt(row: nat, col: nat)
      requires Valid() && row < numlines && row < |lines| && col < |lines[row]|
      modifies this, live
      ensures Valid() && text == old(text) && live == old(live)
      ensures lines == old(lines)[row := old(lines)[row][..col] + old(lines)[row][col + 1..]]
    {
      hide StrLen;
      ghost var said := lines[row];
      RemoveChar(text[row], col);
      lines := lines[row := said[..col] + said[col + 1..]];
    }
  }

  lemma ShownLength(ls: seq<Line>, said: seq<string>, live: set<array<char>>)
    requires Shown(ls, said, live)
    ensures |said| == |ls|
  {
  }
}
