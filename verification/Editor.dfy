/** The text editor (coreutils/te.cc): its list of lines and cursor against the flat contents of the
    file that it saves. */
module Editor {
  import opened Arithmetic
  import opened Sums

  type Line = string

  // ----- files -----

  /** What is saved: every line with a newline after it. */
  function Save(lines: seq<Line>): string {
    if lines == [] then "" else Save(lines[..|lines| - 1]) + lines[|lines| - 1] + "\n"
  }

  predicate Plain(line: Line) { forall i :: 0 <= i < |line| ==> line[i] != '\n' }

  predicate AllPlain(lines: seq<Line>) { forall i :: 0 <= i < |lines| ==> Plain(lines[i]) }

  // The lines that the contents of a file are read into, before the last one is dropped.
  function Split(text: string): (lines: seq<Line>)
    ensures |lines| > 0 && AllPlain(lines)
  {
    if text == "" then [""]
    else
      var lines, c := Split(text[..|text| - 1]), text[|text| - 1];
      if c == '\n' then lines + [""] else lines[|lines| - 1 := lines[|lines| - 1] + [c]]
  }

  function Loaded(text: string): (lines: seq<Line>)
    ensures |lines| > 0 && AllPlain(lines)
  {
    var lines := Split(text);
    if |lines| > 1 then lines[..|lines| - 1] else lines
  }

  lemma {:induction false} SplitSave(lines: seq<Line>)
    requires AllPlain(lines)
    ensures Split(Save(lines)) == lines + [""]
  {
    if lines == [] {
      assert Save(lines) == "";
    } else {
      var init, last := lines[..|lines| - 1], lines[|lines| - 1];
      SplitSave(init);
      SplitExtend(Save(init), last);
      var text := Save(init) + last + "\n";
      assert text[..|text| - 1] == Save(init) + last;
      assert "" + last == last && (init + [""])[|init| := last] == lines;
    }
  }

  lemma {:induction false} SplitExtend(text: string, line: Line)
    requires Plain(line)
    ensures var lines := Split(text); Split(text + line) == lines[|lines| - 1 := lines[|lines| - 1] + line]
  {
    var lines := Split(text);
    if line == "" {
      assert text + line == text;
      assert lines[|lines| - 1] + line == lines[|lines| - 1];
    } else {
      var init := line[..|line| - 1];
      SplitExtend(text, init);
      assert (text + line)[..|text + line| - 1] == text + init;
      assert lines[|lines| - 1] + line == (lines[|lines| - 1] + init) + [line[|line| - 1]];
    }
  }

  /** Loading what was saved gives back every document. */
  lemma LoadedSave(lines: seq<Line>)
    requires AllPlain(lines) && lines != []
    ensures Loaded(Save(lines)) == lines
  {
    SplitSave(lines);
  }

  lemma {:induction false} SaveSplit(text: string)
    ensures Save(Split(text)) == text + "\n"
  {
    if text != "" {
      var init, c := text[..|text| - 1], text[|text| - 1];
      var lines := Split(init);
      SaveSplit(init);
      if c == '\n' {
        assert (lines + [""])[..|lines|] == lines;
        assert text + "\n" == (init + "\n") + "" + "\n";
      } else {
        var n := |lines| - 1;
        assert lines[n := lines[n] + [c]][..n] == lines[..n];
        var last := Save(lines[..n]) + lines[n];
        assert last == (last + "\n")[..|init|] == (init + "\n")[..|init|] == init;
        assert Save(lines[..n]) + (lines[n] + [c]) == text;
      }
    }
  }

  /** What loading does to a file: everything after the last newline is dropped, if there is a newline;
      otherwise one is added. */
  lemma SaveLoaded(text: string)
    ensures var lines := Split(text);
      if |lines| > 1 then Save(Loaded(text)) + lines[|lines| - 1] == text else Save(Loaded(text)) == text + "\n"
  {
    hide Save, Split;
    SaveSplit(text);
    var lines := Split(text);
    var n := |lines| - 1;
    SaveLast(lines);
    NothingSaved();
    Cancel(Save(lines[..n]) + lines[n], text);
    if n == 0 {
      assert lines[..0] == [] && "" + lines[0] == lines[0];
    }
  }

  lemma SaveLast(lines: seq<Line>)
    requires lines != []
    ensures var n := |lines| - 1; Save(lines) == (Save(lines[..n]) + lines[n]) + "\n"
  {
  }

  lemma Cancel(a: string, b: string)
    requires a + "\n" == b + "\n"
    ensures a == b
  {
    assert |a + "\n"| == |b + "\n"|;
    assert (a + "\n")[..|a|] == a && (b + "\n")[..|b|] == b;
  }

  /** Saving what was loaded gives back the file exactly when it ends in a newline. */
  lemma SaveLoadedIff(text: string)
    ensures Save(Loaded(text)) == text <==> text != "" && text[|text| - 1] == '\n'
  {
    SaveLoaded(text);
    LastLineEmpty(text);
  }

  lemma LastLineEmpty(text: string)
    ensures var lines := Split(text);
      |lines| > 1 && lines[|lines| - 1] == "" <==> text != "" && text[|text| - 1] == '\n'
  {
  }

  /** The last line of "a, newline, b" is lost. */
  lemma UnterminatedLineLost()
    ensures Save(Loaded("a\nb")) == "a\n"
  {
    var text := "a\nb";
    assert text[..2] == "a\n" && "a\n"[..1] == "a" && "a"[..0] == "";
    assert "" + ['a'] == "a" && [""][0 := "a"] == ["a"] == Split("a");
    assert Split("a\n") == ["a", ""];
    assert "" + ['b'] == "b" && ["a", ""][1 := "b"] == ["a", "b"] == Split(text);
    SaveLoaded(text);
  }

  // ----- a cursor in a text -----

  // A position in the contents of the file; the last one is that of the final newline.
  datatype Flat = Flat(text: string, at: nat)

  predicate CursorOk(lines: seq<Line>, x: nat, y: nat) {
    y < |lines| && x <= |lines[y]|
  }

  function Position(lines: seq<Line>, x: nat, y: nat): nat
    requires CursorOk(lines, x, y)
  {
    |Save(lines[..y])| + x
  }

  lemma {:induction false} SaveConcat(a: seq<Line>, b: seq<Line>)
    ensures Save(a + b) == Save(a) + Save(b)
  {
    if b == [] {
      assert a + b == a;
    } else {
      SaveConcat(a, b[..|b| - 1]);
      assert (a + b)[..|a + b| - 1] == a + b[..|b| - 1];
    }
  }

  /** The text around one line. */
  lemma SaveAround(a: seq<Line>, line: Line, b: seq<Line>)
    ensures Save(a + [line] + b) == Save(a) + (line + "\n") + Save(b)
  {
    SaveConcat(a + [line], b);
    SaveConcat(a, [line]);
    assert Save([line]) == line + "\n";
  }

  // A document taken apart at one line.
  lemma SplitAt(lines: seq<Line>, y: nat)
    requires y < |lines|
    ensures lines == lines[..y] + [lines[y]] + lines[y + 1..]
    ensures Save(lines) == Save(lines[..y]) + (lines[y] + "\n") + Save(lines[y + 1..])
  {
    hide Save;
    LinesAround(lines, y);
    SaveAround(lines[..y], lines[y], lines[y + 1..]);
  }

  lemma LinesAround(lines: seq<Line>, y: nat)
    requires y < |lines|
    ensures lines == lines[..y] + [lines[y]] + lines[y + 1..]
  {
  }

  function Flatten(lines: seq<Line>, x: nat, y: nat): (f: Flat)
    requires CursorOk(lines, x, y)
    ensures f.at < |f.text|
  {
    SplitAt(lines, y);
    Flat(Save(lines), Position(lines, x, y))
  }

  /** A position belongs to one cursor only. */
  lemma PositionUnique(lines: seq<Line>, x: nat, y: nat, x': nat, y': nat)
    requires CursorOk(lines, x, y) && CursorOk(lines, x', y') && Position(lines, x, y) == Position(lines, x', y')
    ensures x == x' && y == y'
  {
    if y < y' {
      PositionsGrow(lines, y, y');
    } else if y' < y {
      PositionsGrow(lines, y', y);
    }
  }

  lemma PositionsGrow(lines: seq<Line>, y: nat, z: nat)
    requires y < z <= |lines|
    ensures |Save(lines[..y])| + |lines[y]| < |Save(lines[..z])|
  {
    SplitAt(lines[..z], y);
    assert lines[..z][..y] == lines[..y];
  }

  // ----- edits of a flat text -----

  function Typed(f: Flat, c: char): Flat
    requires f.at <= |f.text|
  {
    Flat(f.text[..f.at] + [c] + f.text[f.at..], f.at + 1)
  }

  function Erased(f: Flat): Flat
    requires f.at <= |f.text|
  {
    if f.at == 0 then f else Flat(f.text[..f.at - 1] + f.text[f.at..], f.at - 1)
  }

  function Left(f: Flat): Flat {
    if f.at == 0 then f else Flat(f.text, f.at - 1)
  }

  // One to the right; from the end, if the last line has a character, onto a new line.
  function Right(f: Flat): Flat
    requires f.at < |f.text|
  {
    if f.at + 1 < |f.text| then Flat(f.text, f.at + 1)
    else if |f.text| > 1 && f.text[|f.text| - 2] != '\n' then Flat(f.text + "\n", f.at + 1)
    else f
  }

  // Where the cursor's character is in the text.
  lemma FlatAround(lines: seq<Line>, x: nat, y: nat)
    requires CursorOk(lines, x, y)
    ensures var f, a, b := Flatten(lines, x, y), Save(lines[..y]), Save(lines[y + 1..]);
      && f.text == a + (lines[y] + "\n") + b && f.at == |a| + x < |f.text|
      && f.text[..f.at] == a + lines[y][..x] && f.text[f.at..] == lines[y][x..] + "\n" + b
  {
    SplitAt(lines, y);
    var a, b, line := Save(lines[..y]), Save(lines[y + 1..]), lines[y];
    var text := a + (line + "\n") + b;
    assert text[..|a| + x] == a + line[..x];
    assert text[|a| + x..] == line[x..] + "\n" + b;
  }

  /** Typing a character is inserting it in the text. */
  lemma TypeRefines(lines: seq<Line>, x: nat, y: nat, c: char)
    requires CursorOk(lines, x, y)
    ensures var lines' := lines[y := lines[y][..x] + [c] + lines[y][x..]];
      CursorOk(lines', x + 1, y) && Flatten(lines', x + 1, y) == Typed(Flatten(lines, x, y), c)
  {
    hide Save;
    var line, lines' := lines[y], lines[y := lines[y][..x] + [c] + lines[y][x..]];
    var a, b := Save(lines[..y]), Save(lines[y + 1..]);
    FlatAround(lines, x, y);
    SplitAt(lines', y);
    assert lines'[..y] == lines[..y] && lines'[y + 1..] == lines[y + 1..];
    assert a + ((line[..x] + [c] + line[x..]) + "\n") + b == (a + line[..x]) + [c] + (line[x..] + "\n" + b);
  }

  // What a newline does to the lines.
  function Broken(lines: seq<Line>, x: nat, y: nat): seq<Line>
    requires CursorOk(lines, x, y)
  {
    lines[..y] + [lines[y][..x], lines[y][x..]] + lines[y + 1..]
  }

  /** Breaking a line is inserting a newline in the text. */
  lemma BreakRefines(lines: seq<Line>, x: nat, y: nat)
    requires CursorOk(lines, x, y)
    ensures CursorOk(Broken(lines, x, y), 0, y + 1)
    ensures Flatten(Broken(lines, x, y), 0, y + 1) == Typed(Flatten(lines, x, y), '\n')
  {
    hide Save;
    var first, second, lines' := lines[y][..x], lines[y][x..], Broken(lines, x, y);
    var a, b := Save(lines[..y]), Save(lines[y + 1..]);
    FlatAround(lines, x, y);
    assert lines'[..y + 1] == lines[..y] + [first] + [] && lines'[y + 2..] == lines[y + 1..];
    SaveAround(lines[..y], first, []);
    SplitAt(lines', y + 1);
    NothingSaved();
    assert (a + (first + "\n") + "") + (second + "\n") + b == (a + first) + "\n" + (second + "\n" + b);
  }

  lemma NothingSaved()
    ensures Save([]) == ""
  {
  }

  lemma EraseUndoesType(f: Flat, c: char)
    requires f.at <= |f.text|
    ensures Erased(Typed(f, c)) == f
  {
    var g := Typed(f, c);
    assert g.text[..g.at - 1] == f.text[..f.at] && g.text[g.at..] == f.text[f.at..];
  }

  /** Backspace in a line. */
  lemma EraseRefines(lines: seq<Line>, x: nat, y: nat)
    requires CursorOk(lines, x, y) && x > 0
    ensures var lines' := lines[y := lines[y][..x - 1] + lines[y][x..]];
      CursorOk(lines', x - 1, y) && Flatten(lines', x - 1, y) == Erased(Flatten(lines, x, y))
  {
    hide Save;
    var line := lines[y];
    var shorter := line[..x - 1] + line[x..];
    var lines' := lines[y := shorter];
    TypeRefines(lines', x - 1, y, line[x - 1]);
    assert shorter[..x - 1] + [line[x - 1]] + shorter[x - 1..] == line;
    assert lines'[y := line] == lines;
    FlatAround(lines', x - 1, y);
    EraseUndoesType(Flatten(lines', x - 1, y), line[x - 1]);
  }

  function Joined(lines: seq<Line>, y: nat): seq<Line>
    requires 0 < y < |lines|
  {
    lines[..y - 1] + [lines[y - 1] + lines[y]] + lines[y + 1..]
  }

  /** Backspace at the start of a line. */
  lemma JoinRefines(lines: seq<Line>, y: nat)
    requires 0 < y < |lines|
    ensures CursorOk(Joined(lines, y), |lines[y - 1]|, y - 1)
    ensures Flatten(Joined(lines, y), |lines[y - 1]|, y - 1) == Erased(Flatten(lines, 0, y))
  {
    hide Save;
    var x, lines' := |lines[y - 1]|, Joined(lines, y);
    assert (lines[y - 1] + lines[y])[..x] == lines[y - 1] && (lines[y - 1] + lines[y])[x..] == lines[y];
    assert Broken(lines', x, y - 1) == lines;
    BreakRefines(lines', x, y - 1);
    FlatAround(lines', x, y - 1);
    EraseUndoesType(Flatten(lines', x, y - 1), '\n');
  }

  lemma AtTheStart(lines: seq<Line>)
    requires lines != []
    ensures Erased(Flatten(lines, 0, 0)) == Flatten(lines, 0, 0)
  {
  }

  lemma SaveNext(lines: seq<Line>, y: nat)
    requires y < |lines|
    ensures Save(lines[..y + 1]) == Save(lines[..y]) + lines[y] + "\n"
  {
    assert lines[..y + 1][..y] == lines[..y];
  }

  lemma LeftRefines(lines: seq<Line>, x: nat, y: nat)
    requires CursorOk(lines, x, y)
    ensures x > 0 ==> Flatten(lines, x - 1, y) == Left(Flatten(lines, x, y))
    ensures x == 0 && y > 0 ==> Flatten(lines, |lines[y - 1]|, y - 1) == Left(Flatten(lines, x, y))
    ensures x == 0 && y == 0 ==> Left(Flatten(lines, x, y)) == Flatten(lines, x, y)
  {
    if y > 0 {
      SaveNext(lines, y - 1);
    }
  }

  lemma RightRefines(lines: seq<Line>, x: nat, y: nat)
    requires CursorOk(lines, x, y) && AllPlain(lines)
    ensures Position(lines, x, y) < |Save(lines)|
    ensures x < |lines[y]| ==> Flatten(lines, x + 1, y) == Right(Flatten(lines, x, y))
    ensures x == |lines[y]| && y + 1 < |lines| ==> Flatten(lines, 0, y + 1) == Right(Flatten(lines, x, y))
    ensures x == |lines[y]| > 0 && y + 1 == |lines| ==> Flatten(lines + [""], 0, y + 1) == Right(Flatten(lines, x, y))
    ensures x == |lines[y]| == 0 && y + 1 == |lines| ==> Right(Flatten(lines, x, y)) == Flatten(lines, x, y)
  {
    FlatAround(lines, x, y);
    SaveNext(lines, y);
    if x == |lines[y]| {
      if y + 1 < |lines| {
        SplitAt(lines, y + 1);
      } else {
        AtTheEnd(lines, x, y);
      }
    }
  }

  lemma AtTheEnd(lines: seq<Line>, x: nat, y: nat)
    requires CursorOk(lines, x, y) && AllPlain(lines) && x == |lines[y]| && y + 1 == |lines|
    ensures var f := Flatten(lines, x, y);
      && f.at + 1 == |f.text| && Save(lines + [""]) == f.text + "\n" && (lines + [""])[..y + 1] == lines
      && (x > 0 ==> |f.text| > 1 && f.text[|f.text| - 2] != '\n')
      && (x == 0 && y > 0 ==> f.text[|f.text| - 2] == '\n')
  {
    assert lines[..y + 1] == lines;
    SaveNext(lines, y);
    assert (lines + [""])[..|lines|] == lines;
    assert Save(lines) + "" + "\n" == Save(lines) + "\n";
    if x == 0 && y > 0 {
      SaveNext(lines, y - 1);
    }
  }

  // ----- the editor -----

  const RIGHT: nat := 0x4f
  const LEFT: nat := 0x50
  const DOWN: nat := 0x51
  const UP: nat := 0x52
  const HOME: nat := 0x4a
  const END: nat := 0x4d
  const BACKSPACE: char := '\U{0008}'

  datatype KeyEvent = KeyEvent(code: nat, character: char, ctrl: bool, alt: bool) {
    predicate Arrow() { RIGHT <= code <= UP }

    predicate Moves() { Arrow() && !ctrl && !alt }

    predicate ToStart() { !Arrow() && ((ctrl && character == 'a') || code == HOME) }

    predicate ToEnd() { !Arrow() && !ToStart() && ((ctrl && character == 'e') || code == END) }

    predicate Quits() { !Arrow() && !ToStart() && !ToEnd() && ctrl && (character == 'q' || character == 'x') }

    /** Keys that change the text at the cursor. */
    predicate Edits() { !Arrow() && !ToStart() && !ToEnd() && !ctrl && character != '\0' }
  }

  // The line that up and down lead to, and the lines there are then: down from a last line that is not
  // empty goes on to a new one.
  function Vertical(code: nat, lines: seq<Line>, y: nat): (nat, seq<Line>)
    requires y < |lines|
  {
    if code == UP then (if y == 0 then 0 else y - 1, lines)
    else if y + 1 < |lines| then (y + 1, lines)
    else if lines[y] != "" then (y + 1, lines + [""])
    else (y, lines)
  }

  // The line that a line can change places with; itself at the edge.
  function Neighbour(code: nat, count: nat, y: nat): (n: nat)
    requires y < count
    ensures n < count
  {
    if code == DOWN && y + 1 < count then y + 1 else if code == UP && y > 0 then y - 1 else y
  }

  /** What the editor holds: the document, the cursor and the column saved for vertical moves. */
  datatype Editing = Editing(lines: seq<Line>, x: nat, y: nat, saved: Option<nat>) {
    /** The cursor is inside the document, and no line has a newline in it. */
    predicate Ok() { CursorOk(lines, x, y) && AllPlain(lines) }

    function Doc(): Flat
      requires Ok()
    {
      Flatten(lines, x, y)
    }

    /** The column that vertical moves aim for. */
    function Wanted(): nat { if saved.Some? then saved.value else x }
  }

  // ----- one key, on values -----

  function TypeAt(s: Editing, c: char): (t: Editing)
    requires s.Ok() && c != '\n'
    ensures t.Ok()
  {
    s.(lines := s.lines[s.y := s.lines[s.y][..s.x] + [c] + s.lines[s.y][s.x..]], x := s.x + 1)
  }

  function BreakAt(s: Editing): (t: Editing)
    requires s.Ok()
    ensures t.Ok()
  {
    s.(lines := Broken(s.lines, s.x, s.y), x := 0, y := s.y + 1)
  }

  function EraseAt(s: Editing): (t: Editing)
    requires s.Ok()
    ensures t.Ok()
  {
    if s.x > 0 then s.(lines := s.lines[s.y := s.lines[s.y][..s.x - 1] + s.lines[s.y][s.x..]], x := s.x - 1)
    else if s.y > 0 then s.(lines := Joined(s.lines, s.y), x := |s.lines[s.y - 1]|, y := s.y - 1)
    else s
  }

  function MoveBy(s: Editing, code: nat): (t: Editing)
    requires s.Ok() && RIGHT <= code <= UP
    ensures t.Ok()
  {
    if code == RIGHT then
      if s.x < |s.lines[s.y]| then s.(x := s.x + 1, saved := None)
      else
        var (y, lines) := Vertical(DOWN, s.lines, s.y);
        Editing(lines, 0, y, None)
    else if code == LEFT then
      if s.x > 0 then s.(x := s.x - 1, saved := None)
      else if s.y > 0 then s.(x := |s.lines[s.y - 1]|, y := s.y - 1, saved := None)
      else s.(saved := None)
    else
      var (y, lines) := Vertical(code, s.lines, s.y);
      var x := Min(s.Wanted(), |lines[y]|);
      Editing(lines, x, y, if s.saved.None? && x == s.x then None else Some(s.Wanted()))
  }

  function SwapBy(s: Editing, code: nat): (t: Editing)
    requires s.Ok()
    ensures t.Ok()
  {
    var y := Neighbour(code, |s.lines|, s.y);
    s.(lines := s.lines[s.y := s.lines[y]][y := s.lines[s.y]], y := y)
  }

  /** The effect of one key. */
  function Press(s: Editing, e: KeyEvent): (t: Editing)
    requires s.Ok()
    ensures t.Ok()
  {
    if e.Moves() then MoveBy(s, e.code)
    else if e.Arrow() then if e.ctrl then s else SwapBy(s, e.code)
    else if e.ToStart() then s.(x := 0, saved := None)
    else if e.ToEnd() then s.(x := |s.lines[s.y]|, saved := None)
    else if !e.Edits() then s
    else if e.character == BACKSPACE then EraseAt(s)
    else if e.character == '\n' then BreakAt(s)
    else TypeAt(s, e.character)
  }

  /** What the keys mean for the text: editing keys insert or delete one character at the cursor, left and
      right step over one, up and down keep the wanted column, and other keys change no line, unless alt
      with an arrow moves it. */
  lemma PressMeans(s: Editing, e: KeyEvent)
    requires s.Ok()
    ensures e.Edits() ==>
      Press(s, e).Doc() == if e.character == BACKSPACE then Erased(s.Doc()) else Typed(s.Doc(), e.character)
    ensures e.Moves() && e.code == RIGHT ==> Press(s, e).Doc() == Right(s.Doc())
    ensures e.Moves() && e.code == LEFT ==> Press(s, e).Doc() == Left(s.Doc())
    ensures e.Moves() && (e.code == UP || e.code == DOWN) ==> Press(s, e).Wanted() == s.Wanted()
    ensures !e.Edits() && !e.Arrow() ==> Press(s, e).lines == s.lines
    ensures e.Quits() || (e.Arrow() && e.ctrl) ==> Press(s, e) == s
  {
    hide Save, Flatten, Typed, Erased, Left, Right;
    if e.Edits() {
      if e.character == BACKSPACE {
        EraseMeans(s);
      } else if e.character == '\n' {
        BreakRefines(s.lines, s.x, s.y);
      } else {
        TypeRefines(s.lines, s.x, s.y, e.character);
      }
    } else if e.Moves() {
      LeftRefines(s.lines, s.x, s.y);
      RightRefines(s.lines, s.x, s.y);
    }
  }

  lemma EraseMeans(s: Editing)
    requires s.Ok()
    ensures EraseAt(s).Doc() == Erased(s.Doc())
  {
    hide Save, Flatten, Erased;
    if s.x > 0 {
      EraseRefines(s.lines, s.x, s.y);
    } else if s.y > 0 {
      JoinRefines(s.lines, s.y);
    } else {
      AtTheStart(s.lines);
    }
  }

  // ----- which key does what -----

  /** By key code: 0x52 leads one line up and 0x51 one line down, past a last line that has a character
      onto a new one; the cursor lands in the wanted column or, in a shorter line, at its end. */
  lemma VerticalKeysLead(s: Editing, e: KeyEvent)
    requires s.Ok() && (e.code == 0x51 || e.code == 0x52) && !e.ctrl && !e.alt
    ensures var t := Press(s, e);
      && t.x <= |t.lines[t.y]| && (t.x == s.Wanted() || t.x == |t.lines[t.y]| < s.Wanted())
      && t.Wanted() == s.Wanted()
      && (e.code == 0x52 ==> t.lines == s.lines && t.y == if s.y == 0 then 0 else s.y - 1)
      && (e.code == 0x51 && s.y + 1 < |s.lines| ==> t.lines == s.lines && t.y == s.y + 1)
      && (e.code == 0x51 && s.y + 1 == |s.lines| && |s.lines[s.y]| > 0 ==>
            t.lines == s.lines + [""] && t.y == s.y + 1)
      && (e.code == 0x51 && s.y + 1 == |s.lines| && |s.lines[s.y]| == 0 ==> t.lines == s.lines && t.y == s.y)
  {
  }

  /** Up and then down comes back to the same line, in the wanted column. */
  lemma DownUndoesUp(s: Editing, up: KeyEvent, down: KeyEvent)
    requires s.Ok() && s.y > 0
    requires up.code == 0x52 && down.code == 0x51 && !up.ctrl && !up.alt && !down.ctrl && !down.alt
    ensures var t := Press(Press(s, up), down);
      && t.lines == s.lines && t.y == s.y && t.Wanted() == s.Wanted()
      && (s.x == s.Wanted() || s.x == |s.lines[s.y]| < s.Wanted() ==> t.x == s.x)
  {
    VerticalKeysLead(s, up);
    VerticalKeysLead(Press(s, up), down);
  }

  /** Alt with 0x51 or 0x52 exchanges the line with the next or the one before, keeps all other lines and
      goes along with the line; at the edge, and with another arrow, it does nothing. */
  lemma AltArrowsExchange(s: Editing, e: KeyEvent, n: nat)
    requires s.Ok() && 0x4f <= e.code <= 0x52 && e.alt && !e.ctrl
    requires n == if e.code == 0x51 && s.y + 1 < |s.lines| then s.y + 1
                  else if e.code == 0x52 && s.y > 0 then s.y - 1 else s.y
    ensures var t := Press(s, e);
      && |t.lines| == |s.lines| && t.lines[n] == s.lines[s.y] && t.lines[s.y] == s.lines[n]
      && (forall i :: 0 <= i < |s.lines| && i != n && i != s.y ==> t.lines[i] == s.lines[i])
      && t.y == n && t.x == s.x && t.saved == s.saved
      && multiset(t.lines) == multiset(s.lines)
  {
    ExchangeKeepsAll(s.lines, s.y, n);
  }

  lemma ExchangeKeepsAll(lines: seq<Line>, i: nat, j: nat)
    requires i < |lines| && j < |lines|
    ensures multiset(lines[i := lines[j]][j := lines[i]]) == multiset(lines)
  {
  }

  /** The other keys, by code and character: 0x4a and control-a lead to the start of the line, 0x4d and
      control-e to its end; control-q and control-x end the session; every other key with control, every
      arrow with control and a key without a character change nothing; the rest edit. */
  lemma OtherKeysMean(s: Editing, e: KeyEvent)
    requires s.Ok()
    ensures var t, arrow := Press(s, e), 0x4f <= e.code <= 0x52;
      var home := (e.ctrl && e.character == 'a') || e.code == 0x4a;
      var end := (e.ctrl && e.character == 'e') || e.code == 0x4d;
      && (arrow && e.ctrl ==> t == s)
      && (!arrow && home ==> t.lines == s.lines && t.y == s.y && t.x == 0 && t.saved == None)
      && (!arrow && !home && end ==>
            t.lines == s.lines && t.y == s.y && t.x == |s.lines[s.y]| && t.saved == None)
      && (!arrow && !home && !end && (e.ctrl || e.character == '\0') ==> t == s)
      && (e.Quits() <==> !arrow && !home && !end && e.ctrl && (e.character == 'q' || e.character == 'x'))
      && (!arrow && !home && !end && !e.ctrl && e.character != '\0' ==>
            t.Doc() == if e.character == '\U{0008}' then Erased(s.Doc()) else Typed(s.Doc(), e.character))
      && (e.code == 0x4f && !e.ctrl && !e.alt ==> t.Doc() == Right(s.Doc()) && t.saved == None)
      && (e.code == 0x50 && !e.ctrl && !e.alt ==> t.Doc() == Left(s.Doc()) && t.saved == None)
  {
    hide Save, Flatten, Typed, Erased, Left, Right;
    PressMeans(s, e);
  }

  /** The effect of a sequence of keys. */
  function Pressed(s: Editing, keys: seq<KeyEvent>): (t: Editing)
    requires s.Ok()
    ensures t.Ok()
  {
    if keys == [] then s else Press(Pressed(s, keys[..|keys| - 1]), keys[|keys| - 1])
  }

  function Opened(text: string): (s: Editing)
    ensures s.Ok()
  {
    Editing(Loaded(text), 0, 0, None)
  }

  // The position of the first key that ends the session, or their number.
  function FirstQuit(keys: seq<KeyEvent>): (n: nat)
    ensures n <= |keys| && (n < |keys| ==> keys[n].Quits()) && forall i :: 0 <= i < n ==> !keys[i].Quits()
  {
    if keys == [] || keys[0].Quits() then 0 else 1 + FirstQuit(keys[1..])
  }

  function Characters(keys: seq<KeyEvent>): string {
    seq(|keys|, i requires 0 <= i < |keys| => keys[i].character)
  }

  /** Keys that type characters insert them, all in order, at the cursor. */
  lemma {:induction false} TypingInserts(s: Editing, keys: seq<KeyEvent>)
    requires s.Ok() && forall i :: 0 <= i < |keys| ==> keys[i].Edits() && keys[i].character != BACKSPACE
    ensures var f := s.Doc();
      Pressed(s, keys).Doc() == Flat(f.text[..f.at] + Characters(keys) + f.text[f.at..], f.at + |keys|)
  {
    hide Press, Flatten, Save;
    if keys != [] {
      var n := |keys| - 1;
      TypingInserts(s, keys[..n]);
      PressMeans(Pressed(s, keys[..n]), keys[n]);
      assert Characters(keys) == Characters(keys[..n]) + [keys[n].character];
    }
  }

  class TextEditor {
    var lines: seq<Line>
    var cursorX: nat
    var cursorY: nat
    var savedX: Option<nat>

    ghost function State(): Editing
      reads this
    {
      Editing(lines, cursorX, cursorY, savedX)
    }

    constructor Load(text: string)
      ensures State() == Opened(text)
    {
      lines := [""];
      cursorX, cursorY, savedX := 0, 0, None;
      new;
      for i := 0 to |text|
        invariant lines == Split(text[..i]) && cursorX == 0 && cursorY == 0 && savedX == None
      {
        assert text[..i + 1][..i] == text[..i];
        if text[i] == '\n' {
          lines := lines + [""];
        } else {
          lines := lines[|lines| - 1 := lines[|lines| - 1] + [text[i]]];
        }
      }
      assert text[..|text|] == text;
      if |lines| > 1 {
        lines := lines[..|lines| - 1];
      }
    }

    method Type(c: char)
      requires State().Ok() && c != '\n'
      modifies this
      ensures State() == TypeAt(old(State()), c) && State().Doc() == Typed(old(State()).Doc(), c)
    {
      TypeRefines(lines, cursorX, cursorY, c);
      var line := lines[cursorY];
      lines := lines[cursorY := line[..cursorX] + [c] + line[cursorX..]];
      cursorX := cursorX + 1;
    }

    method Break()
      requires State().Ok()
      modifies this
      ensures State() == BreakAt(old(State())) && State().Doc() == Typed(old(State()).Doc(), '\n')
    {
      hide Save, Flatten, Typed;
      BreakRefines(lines, cursorX, cursorY);
      ghost var before, x, y := lines, cursorX, cursorY;
      lines := lines[..cursorY] + [""] + lines[cursorY..];
      cursorY := cursorY + 1;
      if cursorX > 0 {
        for i := 0 to cursorX
          invariant cursorX == x && cursorY == y + 1 && savedX == old(savedX)
          invariant lines == before[..y] + [before[y][..i]] + before[y..]
        {
          assert before[y][..i + 1] == before[y][..i] + [before[y][i]];
          lines := lines[cursorY - 1 := lines[cursorY - 1] + [lines[cursorY][i]]];
        }
        for i := 0 to cursorX
          invariant cursorX == x && cursorY == y + 1 && savedX == old(savedX)
          invariant lines == before[..y] + [before[y][..x], before[y][i..]] + before[y + 1..]
        {
          lines := lines[cursorY := lines[cursorY][1..]];
        }
      }
      cursorX := 0;
      assert lines == Broken(before, x, y);
    }

    method Backspace()
      requires State().Ok()
      modifies this
      ensures State() == EraseAt(old(State())) && State().Doc() == Erased(old(State()).Doc())
    {
      hide Save, Flatten, Erased;
      EraseMeans(State());
      ghost var before, y := lines, cursorY;
      var line := lines[cursorY];
      if cursorX > 0 {
        cursorX := cursorX - 1;
        lines := lines[cursorY := line[..cursorX] + line[cursorX + 1..]];
      } else if cursorY > 0 {
        cursorX := |lines[cursorY - 1]|;
        assert before[y - 1] + line[..0] == before[y - 1];
        for i := 0 to |line|
          invariant cursorX == |before[y - 1]| && cursorY == y && savedX == old(savedX)
          invariant lines == before[..y - 1] + [before[y - 1] + line[..i]] + before[y..]
        {
          assert before[y - 1] + line[..i + 1] == (before[y - 1] + line[..i]) + [line[i]];
          lines := lines[cursorY - 1 := lines[cursorY - 1] + [line[i]]];
        }
        lines := lines[..cursorY] + lines[cursorY + 1..];
        cursorY := cursorY - 1;
        assert line[..|line|] == line;
        assert lines == Joined(before, y);
      }
    }

    /** The arrow keys. */
    method Move(code: nat)
      requires State().Ok() && RIGHT <= code <= UP
      modifies this
      ensures State() == MoveBy(old(State()), code)
    {
      if code == RIGHT {
        if cursorX < |lines[cursorY]| {
          cursorX := cursorX + 1;
        } else if cursorY < |lines| {
          cursorX := 0;
          cursorY := cursorY + 1;
        }
      } else if code == LEFT {
        if cursorX > 0 {
          cursorX := cursorX - 1;
        } else if cursorY > 0 {
          cursorY := cursorY - 1;
          cursorX := |lines[cursorY]|;
        }
      } else if code == DOWN {
        if cursorY < |lines| {
          cursorY := cursorY + 1;
        }
      } else {
        if cursorY > 0 {
          cursorY := cursorY - 1;
        }
      }
      if cursorY == |lines| {
        if |lines[cursorY - 1]| == 0 {
          cursorY := cursorY - 1;
        } else {
          lines := lines + [""];
        }
      }
      if code == RIGHT || code == LEFT {
        savedX := None;
      } else if savedX.Some? {
        cursorX := Min(savedX.value, |lines[cursorY]|);
      }
      if cursorX > |lines[cursorY]| {
        savedX := Some(cursorX);
        cursorX := |lines[cursorY]|;
      }
    }

    // Alt with up or down: the line changes places with its neighbour, and the cursor goes along.
    method Swap(code: nat)
      requires State().Ok()
      modifies this
      ensures State() == SwapBy(old(State()), code)
    {
      if code == DOWN && cursorY < |lines| - 1 {
        lines := lines[cursorY := lines[cursorY + 1]][cursorY + 1 := lines[cursorY]];
        cursorY := cursorY + 1;
      } else if code == UP && cursorY > 0 {
        lines := lines[cursorY := lines[cursorY - 1]][cursorY - 1 := lines[cursorY]];
        cursorY := cursorY - 1;
      }
    }

    /** read_key: the effect of the key, whether the editor goes on, and what it writes to the file. */
    method ReadKey(event: KeyEvent) returns (more: bool, file: Option<string>)
      requires State().Ok()
      modifies this
      ensures State() == Press(old(State()), event)
      ensures event.Edits() && event.character == BACKSPACE ==> State().Doc() == Erased(old(State()).Doc())
      ensures event.Edits() && event.character != BACKSPACE ==>
        State().Doc() == Typed(old(State()).Doc(), event.character)
      ensures event.Moves() && event.code == RIGHT ==> State().Doc() == Right(old(State()).Doc())
      ensures event.Moves() && event.code == LEFT ==> State().Doc() == Left(old(State()).Doc())
      ensures event.Moves() && (event.code == UP || event.code == DOWN) ==> State().Wanted() == old(State()).Wanted()
      ensures more <==> !event.Quits()
      ensures file == if event.Quits() && event.character == 'x' then Some(Save(lines)) else None
    {
      hide MoveBy, SwapBy, TypeAt, BreakAt, EraseAt, Save, Flatten, Typed, Erased, Left, Right;
      PressMeans(State(), event);
      more, file := true, None;
      if event.Arrow() {
        if event.ctrl {
          return;
        }
        if event.alt {
          Swap(event.code);
          return;
        }
        Move(event.code);
        return;
      }
      if (event.ctrl && event.character == 'a') || event.code == HOME {
        cursorX, savedX := 0, None;
        return;
      }
      if (event.ctrl && event.character == 'e') || event.code == END {
        cursorX, savedX := |lines[cursorY]|, None;
        return;
      }
      if event.ctrl && event.character == 'q' {
        return false, None;
      }
      if event.ctrl && event.character == 'x' {
        var text := WriteFile();
        return false, Some(text);
      }
      if event.ctrl {
        return;
      }
      if event.character == BACKSPACE {
        Backspace();
        return;
      }
      if event.character == '\n' {
        Break();
        return;
      }
      if event.character != '\0' {
        Type(event.character);
      }
    }

    method WriteFile() returns (text: string)
      ensures text == Save(lines)
    {
      text := "";
      for i := 0 to |lines|
        invariant text == Save(lines[..i])
      {
        SaveNext(lines, i);
        text := text + lines[i] + "\n";
      }
      assert lines[..|lines|] == lines;
    }
  }

  /** Any session: the keys up to the first one that ends it take effect, one after the other, on what was
      loaded. The file is written exactly when that key is control-x, and the next session loads what this
      one showed. */
  method Session(text: string, keys: seq<KeyEvent>) returns (editor: TextEditor, file: Option<string>)
    ensures var n, end := FirstQuit(keys), editor.State();
      && end.Ok() && end == Pressed(Opened(text), keys[..n])
      && file == (if n < |keys| && keys[n].character == 'x' then Some(Save(end.lines)) else None)
      && (file.Some? ==> Loaded(file.value) == end.lines)
  {
    hide Press, Loaded, Save;
    editor := new TextEditor.Load(text);
    file := None;
    for i := 0 to |keys|
      invariant fresh(editor) && i <= FirstQuit(keys) && file == None
      invariant editor.State() == Pressed(Opened(text), keys[..i])
    {
      ghost var before := editor.State();
      var more, written := editor.ReadKey(keys[i]);
      if !more {
        PressMeans(before, keys[i]);
        LoadedSave(editor.lines);
        return editor, written;
      }
      assert keys[..i + 1][..i] == keys[..i];
    }
  }
}
