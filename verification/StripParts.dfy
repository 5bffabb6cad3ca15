/**
  * What `strip_line` and `join_split_spans` write, told from the pieces of code between the comments:
  * which blanks go, where a space is put, and when a comment joins two lines.
  */
module StripParts {
  import opened Text
  import opened Lexer
  import opened Tagged
  import opened StripLine

  // ----- one line -----

  /** A comment on a line and the code behind it. */
  datatype Part = Part(comment: seq<Cell>, code: seq<Cell>)

  predicate Plain(x: seq<Cell>) {
    forall k :: 0 <= k < |x| ==> !x[k].IsComment()
  }

  predicate Comments(x: seq<Cell>) {
    x != [] && forall k :: 0 <= k < |x| ==> x[k].IsComment()
  }

  /** Only the last comment may have no code behind it; behind code no comment starts with a blank. */
  predicate Parted(parts: seq<Part>) {
    && (forall k :: 0 <= k < |parts| ==> Comments(parts[k].comment) && Plain(parts[k].code))
    && (forall k :: 0 <= k < |parts| - 1 ==> parts[k].code != [])
    && (forall k :: 0 < k < |parts| ==> !SpaceOrTab(parts[k].comment[0].ch))
  }

  function LineOf(parts: seq<Part>): seq<Cell> {
    if parts == [] then [] else parts[0].comment + parts[0].code + LineOf(parts[1..])
  }

  /** Next to these no space is needed. */
  predicate Tight(c: char) {
    c == '(' || c == ')' || c == '[' || c == ']' || c == '{' || c == '}' || c == ',' || c == ';'
  }

  predicate SpaceOrTab(c: char) { c == ' ' || c == '\t' }

  function DropBlanks(s: string): string {
    if s != "" && SpaceOrTab(s[0]) then DropBlanks(s[1..]) else s
  }

  /** Code behind a removed comment: after a blank its own blanks go; else a space parts two words that would touch. */
  function Glue(out: string, code: string): string {
    if code == "" then out
    else if out == "" || SpaceOrTab(out[|out| - 1]) then out + DropBlanks(code)
    else if SpaceOrTab(code[0]) || Tight(out[|out| - 1]) || Tight(code[0]) then out + code
    else out + " " + code
  }

  function GlueAll(out: string, parts: seq<Part>): string
    decreases |parts|
  {
    if parts == [] then out else GlueAll(Glue(out, TextOf(parts[0].code)), parts[1..])
  }

  /** A comment stands at the end of the line. */
  predicate Trails(parts: seq<Part>) {
    parts != [] && parts[|parts| - 1].code == []
  }

  /** `strip_line` glues the code of the line together, and trims the end behind a last comment. */
  lemma {:induction false} LineGlued(head: seq<Cell>, parts: seq<Part>)
    requires Plain(head) && Parted(parts)
    ensures
      var glued := GlueAll(TextOf(head), parts);
      TextOf(Stripped(head + LineOf(parts))) == if Trails(parts) then RStrip(glued) else glued
  {
    hide TextOf, StripFrom, GlueAll, LineOf;
    var line := head + LineOf(parts);
    var cut := StripFrom(line, "");
    PlainRun([], head, LineOf(parts));
    assert [] + head == head;
    assert TextOf([]) == "" by { TextEmpty(); }
    PartsGlued(head, parts);
    assert cut == Onto(head, StripFrom(LineOf(parts), Last(TextOf(head)))) by { OntoNothing(cut); }
    if cut.trailing {
      TrimText(cut.cells);
    }
  }

  /** Every line of a scanned text has such parts. */
  lemma {:induction false} LineParts(line: seq<Cell>) returns (head: seq<Cell>, parts: seq<Part>)
    requires WellTagged(line)
    ensures Plain(head) && Parted(parts) && line == head + LineOf(parts)
    decreases |line|
  {
    hide PairShape, CellShape, WellTagged, SpaceOrTab;
    if line == [] {
      head, parts := [], [];
    } else {
      var c, more := line[0], line[1..];
      TaggedTail(line, 1);
      var h, ps := LineParts(more);
      assert line == [c] + more;
      if !c.IsComment() {
        head, parts := [c] + h, ps;
        assert [c] + (h + LineOf(ps)) == [c] + h + LineOf(ps);
      } else {
        head := [];
        parts := Commented(line, h, ps);
      }
    }
  }

  /** A comment cell in front of the parts of the rest of the line. */
  lemma {:induction false} Commented(line: seq<Cell>, code: seq<Cell>, ps: seq<Part>) returns (parts: seq<Part>)
    requires line != [] && line[0].IsComment() && WellTagged(line) && line[1..] == code + LineOf(ps)
    requires Plain(code) && Parted(ps)
    ensures Parted(parts) && line == LineOf(parts)
  {
    hide LineOf, WellTagged, Parted;
    var c := [line[0]];
    assert line == c + line[1..];
    if code == [] && ps != [] {
      parts := Merged(c, ps);
      assert code + LineOf(ps) == LineOf(ps);
    } else {
      parts := [Part(c, code)] + ps;
      LineCons(Part(c, code), ps);
      assert c + (code + LineOf(ps)) == c + code + LineOf(ps);
      if ps != [] {
        FirstOf(ps);
        assert line[|code|] == code[|code| - 1] && line[|code| + 1] == LineOf(ps)[0];
        CodeThenComment(line, |code| + 1);
      }
      PartedCons(Part(c, code), ps);
    }
  }

  lemma {:induction false} Merged(c: seq<Cell>, ps: seq<Part>) returns (parts: seq<Part>)
    requires Comments(c) && Parted(ps) && ps != []
    ensures Parted(parts) && LineOf(parts) == c + LineOf(ps)
  {
    hide LineOf;
    var merged, more := Part(c + ps[0].comment, ps[0].code), ps[1..];
    parts := [merged] + more;
    LineCons(merged, more);
    LineCons(ps[0], more);
    assert [ps[0]] + more == ps;
    assert c + (ps[0].comment + ps[0].code + LineOf(more)) == c + ps[0].comment + ps[0].code + LineOf(more);
  }

  lemma {:induction false} PartedCons(part: Part, ps: seq<Part>)
    requires Comments(part.comment) && Plain(part.code) && Parted(ps) && (ps != [] ==> part.code != [] && !SpaceOrTab(ps[0].comment[0].ch))
    ensures Parted([part] + ps)
  {
    hide Comments, Plain, SpaceOrTab;
  }

  lemma FirstOf(ps: seq<Part>)
    requires Parted(ps) && ps != []
    ensures ps[0].comment != [] && LineOf(ps) != [] && LineOf(ps)[0] == ps[0].comment[0] && ps[0].comment[0].IsComment()
  {
  }

  lemma LineCons(part: Part, parts: seq<Part>)
    ensures LineOf([part] + parts) == part.comment + part.code + LineOf(parts)
  {
    assert ([part] + parts)[1..] == parts;
  }

  /** A comment behind code starts with a visible character. */
  lemma {:induction false} CodeThenComment(line: seq<Cell>, k: nat)
    requires WellTagged(line) && 0 < k < |line| && !line[k - 1].IsComment() && line[k].IsComment()
    ensures !SpaceOrTab(line[k].ch)
  {
    assert PairShape(line[k - 1], line[k]) && CellShape(line[k]);
  }

  lemma OntoNothing(cut: Cut)
    ensures Onto([], cut) == cut
  {
    assert [] + cut.cells == cut.cells;
  }

  /** Code is copied. */
  lemma {:induction false} PlainRun(out: seq<Cell>, code: seq<Cell>, rest: seq<Cell>)
    requires Plain(code)
    ensures Onto(out, StripFrom(code + rest, Last(TextOf(out)))) == Onto(out + code, StripFrom(rest, Last(TextOf(out + code))))
    decreases |code|
  {
    hide StripFrom, TextOf;
    if code == [] {
      assert code + rest == rest && out + code == out;
    } else {
      var c, more := code[0], code[1..];
      var line := code + rest;
      assert line[0] == c && line[1..] == more + rest && line[0..] == line;
      StepPlain(line, 0, Last(TextOf(out)));
      TextSnoc(out, c);
      CutSnoc(out, c, StripFrom(more + rest, [c.ch]));
      PlainRun(out + [c], more, rest);
      assert out + [c] + more == out + code;
    }
  }

  /** The cells written for the parts are the glued text. */
  lemma {:induction false} PartsGlued(out: seq<Cell>, parts: seq<Part>)
    requires Parted(parts)
    ensures TextOf(Onto(out, StripFrom(LineOf(parts), Last(TextOf(out)))).cells) == GlueAll(TextOf(out), parts)
    ensures StripFrom(LineOf(parts), Last(TextOf(out))).trailing <==> Trails(parts)
    decreases |parts|
  {
    hide StripFrom, TextOf, Glue, Comments, Plain;
    if parts == [] {
      EmptyCut(Last(TextOf(out)));
      assert out + [] == out;
    } else {
      var out' := OnePart(out, parts);
      if parts[0].code != [] {
        PartsGlued(out', parts[1..]);
      } else {
        assert |parts| == 1;
        assert out + [] == out;
        assert TextOf([]) == "" by { TextEmpty(); }
        assert Glue(TextOf(out), "") == TextOf(out) by { GlueNothing(TextOf(out)); }
      }
    }
  }

  lemma GlueNothing(out: string)
    ensures Glue(out, "") == out
  {
  }

  /** One comment and its code. */
  lemma {:induction false} OnePart(out: seq<Cell>, parts: seq<Part>) returns (out': seq<Cell>)
    requires Parted(parts) && parts != []
    ensures
      var before := Last(TextOf(out));
      if parts[0].code == [] then StripFrom(LineOf(parts), before) == Cut([], true)
      else
        && TextOf(out') == Glue(TextOf(out), TextOf(parts[0].code))
        && Onto(out, StripFrom(LineOf(parts), before)) == Onto(out', StripFrom(LineOf(parts[1..]), Last(TextOf(out'))))
  {
    hide StripFrom, TextOf, Glue, IsBlank, Unspaced;
    var comment, code, more := parts[0].comment, parts[0].code, LineOf(parts[1..]);
    var line, before := LineOf(parts), Last(TextOf(out));
    assert line == comment + (code + more);
    assert code == [] ==> parts[1..] == [] && more == [];
    assert code != [] ==> (code + more)[0] == code[0];
    RunLength(comment, code + more);
    assert line[0..] == line && line[|comment|..] == code + more;
    StepMasked(line, 0, |comment|, before);
    if code == [] {
      out' := out;
    } else {
      BlanksOf(code, parts[1..]);
      out' := Behind(out, code, more);
    }
  }

  lemma {:induction false} RunLength(comment: seq<Cell>, rest: seq<Cell>)
    requires Comments(comment) && (rest != [] ==> !rest[0].IsComment())
    ensures MaskedRun(comment + rest) == |comment|
  {
    hide MaskedRun;
    var n, line := MaskedRun(comment + rest), comment + rest;
    assert forall k :: 0 <= k < |comment| ==> line[k] == comment[k];
    assert rest != [] ==> line[|comment|] == rest[0];
  }

  /** The blanks at the front of the code are those at the front of the rest of the line. */
  lemma {:induction false} BlanksOf(code: seq<Cell>, parts: seq<Part>)
    requires Parted(parts) && (parts != [] ==> !SpaceOrTab(parts[0].comment[0].ch))
    ensures BlankRun(code + LineOf(parts)) == BlankRun(code)
    ensures BlankRun(code) <= |code| && TextOf(code[BlankRun(code)..]) == DropBlanks(TextOf(code))
    decreases |code|
  {
    hide Plain;
    var more := LineOf(parts);
    if code == [] {
      assert code + more == more;
      assert parts != [] ==> more[0] == parts[0].comment[0];
    } else {
      assert (code + more)[0] == code[0] && (code + more)[1..] == code[1..] + more;
      assert TextOf(code)[1..] == TextOf(code[1..]);
      BlanksOf(code[1..], parts);
      assert IsBlank(code[0].ch) ==> code[BlankRun(code)..] == code[1..][BlankRun(code[1..])..];
      assert code[0..] == code;
    }
  }

  /** The code behind a comment, by what was written before it. */
  lemma {:induction false} Behind(out: seq<Cell>, code: seq<Cell>, more: seq<Cell>) returns (out': seq<Cell>)
    requires code != [] && Plain(code) && BlankRun(code + more) == BlankRun(code)
    requires TextOf(code[BlankRun(code)..]) == DropBlanks(TextOf(code))
    ensures TextOf(out') == Glue(TextOf(out), TextOf(code))
    ensures Onto(out, AfterRun(code + more, Last(TextOf(out)))) == Onto(out', StripFrom(more, Last(TextOf(out'))))
  {
    hide StripFrom, TextOf, BlankRun, DropBlanks;
    var rest, before := code + more, Last(TextOf(out));
    FirstChar(code);
    assert rest[0] == code[0];
    if before == "" || IsBlank(before[0]) {
      var n := BlankRun(code);
      assert rest[n..] == code[n..] + more;
      PlainRun(out, code[n..], more);
      out' := out + code[n..];
      TextConcat(out, code[n..]);
    } else if !IsBlank(rest[0].ch) && !Unspaced(before[0]) && !Unspaced(rest[0].ch) {
      TextSnoc(out, SPACE);
      CutSnoc(out, SPACE, StripFrom(rest, " "));
      PlainRun(out + [SPACE], code, more);
      out' := out + [SPACE] + code;
      TextConcat(out + [SPACE], code);
    } else {
      PlainRun(out, code, more);
      out' := out + code;
      TextConcat(out, code);
    }
  }

  lemma {:induction false} TextConcat(a: seq<Cell>, b: seq<Cell>)
    ensures TextOf(a + b) == TextOf(a) + TextOf(b)
  {
  }

  lemma FirstChar(code: seq<Cell>)
    requires code != []
    ensures TextOf(code) != "" && TextOf(code)[0] == code[0].ch
  {
  }
}
