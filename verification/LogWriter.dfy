/** The writer that colours log lines: it splits like the line buffer, and colouring keeps the text. */
module LogWriter {
  import opened LineBuffer

  datatype Colors = Colors(debug: string, info: string, warning: string, error: string, message: string, gray: string, reset: string)

  /** A coloured piece of a line. */
  datatype Segment = Segment(color: string, text: string)

  /** writeColored */
  function Render(colors: Colors, s: Segment): string {
    if s.text == "" then "" else if s.color == "" then s.text else s.color + s.text + colors.reset
  }

  function RenderAll(colors: Colors, segments: seq<Segment>): string {
    if segments == [] then "" else RenderAll(colors, segments[..|segments|-1]) + Render(colors, segments[|segments|-1])
  }

  function Texts(segments: seq<Segment>): string {
    if segments == [] then "" else Texts(segments[..|segments|-1]) + segments[|segments|-1].text
  }

  function Palette(colors: Colors): set<string> {
    {"", colors.debug, colors.info, colors.warning, colors.error, colors.message, colors.gray}
  }

  function LevelColor(colors: Colors, level: string): string {
    if level == "debug" || level == "trace" then colors.debug
    else if level == "info" then colors.info
    else if level == "warning" || level == "warn" then colors.warning
    else if level == "error" || level == "fatal" || level == "panic" then colors.error
    else ""
  }

  // ---------- extractField ----------

  /** strings.Index: the first occurrence. */
  function Index(s: string, part: string): (r: int)
    ensures r >= -1
    ensures r >= 0 ==> r <= |s| && part <= s[r..]
    ensures forall k :: 0 <= k <= |s| && (r < 0 || k < r) ==> !(part <= s[k..])
    decreases |s|
  {
    if part <= s then 0
    else if s == "" then -1
    else
      var r := Index(s[1..], part);
      assert forall k :: 0 < k <= |s| ==> s[k..] == s[1..][k-1..];
      assert s[0..] == s;
      if r < 0 then -1 else r + 1
  }

  /** No quote ends the text: a backslash takes the character after it along. A lone backslash can
      only be the last character of all. */
  predicate Unclosed(t: string, last: bool) {
    if t == "" then true
    else if t[0] == '\\' then (if |t| == 1 then last else Unclosed(t[2..], last))
    else t[0] != '"' && Unclosed(t[1..], last)
  }

  lemma {:induction false} UnclosedSplit(a: string, b: string, last: bool)
    requires Unclosed(a, false)
    ensures Unclosed(a + b, last) <==> Unclosed(b, last)
    decreases |a|
  {
    if a == "" {
      assert a + b == b;
    } else if a[0] == '\\' {
      UnclosedSplit(a[2..], b, last);
      assert (a + b)[2..] == a[2..] + b;
    } else {
      UnclosedSplit(a[1..], b, last);
      assert (a + b)[1..] == a[1..] + b;
    }
  }

  /** The first unescaped quote from i on, or the end. */
  method ClosingQuote(s: string, from: int) returns (i: int)
    requires 0 <= from <= |s|
    ensures from <= i <= |s|
    ensures Unclosed(s[from..i], i == |s|)
    ensures i < |s| ==> s[i] == '"'
  {
    i := from;
    assert s[from..from] == "";
    while i < |s|
      invariant from <= i <= |s| && Unclosed(s[from..i], i == |s|)
      decreases |s| - i
    {
      if s[i] == '\\' && i + 1 < |s| {
        TakeUnit(s, from, i, i + 2);
        i := i + 2;
        continue;
      }
      if s[i] == '"' {
        return;
      }
      TakeUnit(s, from, i, i + 1);
      i := i + 1;
    }
  }

  /** One character, or two with a backslash, more. */
  lemma TakeUnit(s: string, from: int, i: int, j: int)
    requires 0 <= from <= i < j <= |s| && Unclosed(s[from..i], false)
    requires if s[i] == '\\' && i + 1 < |s| then j == i + 2 else s[i] != '"' && j == i + 1
    ensures Unclosed(s[from..j], j == |s|)
  {
    var unit := s[i..j];
    assert unit[|unit|..] == "";
    assert Unclosed(unit, j == |s|);
    UnclosedSplit(s[from..i], unit, j == |s|);
    assert s[from..j] == s[from..i] + unit;
  }

  datatype Field = Field(value: string, start: nat, end: nat)

  /** The value runs to the first unescaped quote, or without an opening quote to the first space;
      either way at most to the end of the line. */
  predicate IsValue(s: string, from: nat, value: string, end: nat)
    requires from <= |s|
  {
    if from < |s| && s[from] == '"' then
      var i := from + 1 + |value|;
      && i <= |s| && value == s[from+1..i] && Unclosed(value, i == |s|)
      && (if i < |s| then s[i] == '"' && end == i + 1 else end == i)
    else
      from <= end <= |s| && value == s[from..end] && ' ' !in value && (end < |s| ==> s[end] == ' ')
  }

  /** The first field prefix<value> or prefix"<value>" of the line. */
  ghost predicate IsField(s: string, prefix: string, f: Field) {
    && f.start + |prefix| <= f.end <= |s| && prefix <= s[f.start..]
    && (forall k :: 0 <= k < f.start ==> !(prefix <= s[k..]))
    && IsValue(s, f.start + |prefix|, f.value, f.end)
  }

  /** A line has at most one first field of a name. */
  lemma FieldUnique(s: string, prefix: string, f: Field, g: Field)
    requires IsField(s, prefix, f) && IsField(s, prefix, g)
    ensures f == g
  {
    assert f.start == g.start;
    ValueUnique(s, f.start + |prefix|, f.value, f.end, g.value, g.end);
  }

  lemma ValueUnique(s: string, from: nat, v: string, i: nat, w: string, j: nat)
    requires from <= |s| && IsValue(s, from, v, i) && IsValue(s, from, w, j)
    ensures v == w && i == j
  {
    if from < |s| && s[from] == '"' {
      if |v| < |w| {
        QuoteCloses(s, from + 1, v, w);
      } else if |w| < |v| {
        QuoteCloses(s, from + 1, w, v);
      }
    } else {
      assert forall k :: from <= k < i ==> s[k] == v[k - from];
      assert forall k :: from <= k < j ==> s[k] == w[k - from];
    }
  }

  /** Text that goes on after a closing quote is not unclosed. */
  lemma QuoteCloses(s: string, from: nat, v: string, w: string)
    requires from + |w| <= |s| && |v| < |w| && v == s[from..from+|v|] && w == s[from..from+|w|]
    requires Unclosed(v, false) && s[from + |v|] == '"'
    ensures !Unclosed(w, from + |w| == |s|)
  {
    UnclosedSplit(v, w[|v|..], from + |w| == |s|);
    assert w == v + w[|v|..];
  }

  predicate Occurs(s: string, part: string) {
    exists k :: 0 <= k <= |s| && part <= s[k..]
  }

  lemma PlainValue(s: string, from: nat, space: int)
    requires from < |s| && s[from] != '"' && space == Index(s[from..], " ")
    ensures var end := if space < 0 then |s| else from + space;
      end <= |s| && IsValue(s, from, s[from..end], end)
  {
    hide Index;
    var rest := s[from..];
    var end := if space < 0 then |s| else from + space;
    forall k | 0 <= k < end - from ensures s[from..end][k] != ' ' {
      assert rest[k] == s[from..end][k];
      assert !(" " <= rest[k..]);
      assert rest[k..][0] == rest[k];
    }
    if space >= 0 {
      assert rest[space..][0] == ' ';
    }
  }

  lemma FieldBounds(s: string, prefix: string, f: Field)
    requires IsField(s, prefix, f)
    ensures f.start + |prefix| <= f.end <= |s| && prefix <= s[f.start..]
  {
  }

  /** The text from the quote to what ClosingQuote finds. */
  lemma QuotedValue(s: string, from: nat, i: int)
    requires from < i <= |s| && s[from] == '"'
    requires Unclosed(s[from+1..i], i == |s|) && (i < |s| ==> s[i] == '"')
    ensures IsValue(s, from, s[from+1..i], if i < |s| then i + 1 else i)
  {
  }

  /** The value that begins at from, and where it ends. */
  method ExtractValue(s: string, from: nat) returns (value: string, end: nat)
    requires from <= |s|
    ensures IsValue(s, from, value, end) && from <= end <= |s|
  {
    hide Index, Unclosed;
    if from >= |s| {
      return "", from;
    }
    if s[from] == '"' {
      var i := ClosingQuote(s, from + 1);
      QuotedValue(s, from, i);
      if i < |s| {
        return s[from+1..i], i + 1;
      }
      assert s[from+1..] == s[from+1..i];
      return s[from+1..], |s|;
    }
    var spaceIdx := Index(s[from..], " ");
    PlainValue(s, from, spaceIdx);
    if spaceIdx < 0 {
      assert s[from..] == s[from..|s|];
      return s[from..], |s|;
    }
    return s[from..from + spaceIdx], from + spaceIdx;
  }

  /** No field is found exactly when the prefix does not occur. */
  method ExtractField(s: string, prefix: string) returns (value: string, start: int, end: int)
    ensures start < 0 <==> !Occurs(s, prefix)
    ensures start >= 0 ==> end >= 0 && IsField(s, prefix, Field(value, start, end))
  {
    hide Index, IsValue;
    var idx := Index(s, prefix);
    if idx < 0 {
      return "", -1, -1;
    }
    assert prefix <= s[idx..];
    value, end := ExtractValue(s, idx + |prefix|);
    start := idx;
  }

  // ---------- formatLine ----------

  /** out is line cut into pieces, each plain or between a colour of the palette and the reset. */
  ghost predicate Colours(colors: Colors, line: string, out: string) {
    exists segments :: IsCut(colors, line, out, segments)
  }

  ghost predicate IsCut(colors: Colors, line: string, out: string, segments: seq<Segment>) {
    && out == RenderAll(colors, segments) && Texts(segments) == line
    && forall i :: 0 <= i < |segments| ==> segments[i].color in Palette(colors)
  }

  lemma NoPieces(colors: Colors)
    ensures Colours(colors, "", "")
  {
    assert IsCut(colors, "", "", []);
  }

  /** One more piece. */
  lemma AddPiece(colors: Colors, line: string, out: string, s: Segment)
    requires Colours(colors, line, out) && s.color in Palette(colors)
    ensures Colours(colors, line + s.text, out + Render(colors, s))
  {
    var segments :| IsCut(colors, line, out, segments);
    var more := segments + [s];
    assert more[..|segments|] == segments;
    assert IsCut(colors, line + s.text, out + Render(colors, s), more);
  }

  lemma PlainLine(colors: Colors, line: string)
    ensures Colours(colors, line, line)
  {
    NoPieces(colors);
    AddPiece(colors, "", "", Segment("", line));
    assert "" + line == line;
  }

  method WriteColored(colors: Colors, ghost line: string, out0: string, color: string, text: string) returns (out: string)
    requires Colours(colors, line, out0) && color in Palette(colors)
    ensures Colours(colors, line + text, out)
    ensures out == out0 + Render(colors, Segment(color, text))
  {
    hide Colours, Palette;
    AddPiece(colors, line, out0, Segment(color, text));
    out := out0;
    if text == "" {
      assert out0 + "" == out0;
      return;
    }
    if color == "" {
      out := out + text;
      return;
    }
    out := out + color + text + colors.reset;
    assert out == out0 + (color + text + colors.reset);
  }

  function Paint(colors: Colors, color: string, text: string): string {
    Render(colors, Segment(color, text))
  }

  /** A line with a level: gray up to it, the level field in the colour of its value, and the rest. */
  ghost predicate IsPainted(colors: Colors, line: string, out: string) {
    if colors.reset == "" || !Occurs(line, "level=") then out == line
    else exists f, rest :: IsField(line, "level=", f) && IsPaintedRest(colors, line[f.end..], rest) && out == PaintedLevel(colors, line, f) + rest
  }

  function PaintedLevel(colors: Colors, line: string, f: Field): string
    requires f.start <= f.end <= |line|
  {
    Paint(colors, colors.gray, line[..f.start]) + Paint(colors, LevelColor(colors, f.value), line[f.start..f.end])
  }

  /** The text of the message in its own colour, everything else gray. */
  ghost predicate IsPaintedRest(colors: Colors, s: string, out: string) {
    if !Occurs(s, "msg=") then out == Paint(colors, colors.gray, s)
    else exists f :: IsField(s, "msg=", f) && out == PaintedMessage(colors, s, f.start, f.end)
  }

  function PaintedMessage(colors: Colors, s: string, start: int, end: int): string
    requires 0 <= start && start + 4 <= end <= |s|
  {
    Paint(colors, colors.gray, s[..start]) + Paint(colors, colors.gray, "msg=")
    + Paint(colors, colors.message, s[start + 4..end]) + Paint(colors, colors.gray, s[end..])
  }

  /** formatLine: which piece gets which colour, and the pieces are the line. */
  method FormatLine(colors: Colors, line: string) returns (out: string)
    ensures Colours(colors, line, out)
    ensures IsPainted(colors, line, out)
  {
    hide Colours, Render, IsField, Occurs;
    PlainLine(colors, line);
    if colors.reset == "" {
      return line;
    }
    var level, levelIdx, levelEnd := ExtractField(line, "level=");
    if levelIdx < 0 {
      return line;
    }
    ghost var f := Field(level, levelIdx, levelEnd);
    FieldBounds(line, "level=", f);
    NoPieces(colors);
    out := WriteColored(colors, "", "", colors.gray, line[..levelIdx]);
    assert "" + line[..levelIdx] == line[..levelIdx];
    out := WriteColored(colors, line[..levelIdx], out, LevelColor(colors, level), line[levelIdx..levelEnd]);
    assert line[..levelIdx] + line[levelIdx..levelEnd] == line[..levelEnd];
    ghost var painted := out;
    assert "" + Paint(colors, colors.gray, line[..levelIdx]) == Paint(colors, colors.gray, line[..levelIdx]);
    assert painted == PaintedLevel(colors, line, f);
    var rest := line[levelEnd..];
    assert line[..levelEnd] + rest == line;
    var msg, msgIdx, msgEnd := ExtractField(rest, "msg=");
    ghost var end: string;
    if msgIdx < 0 {
      out := WriteColored(colors, line[..levelEnd], out, colors.gray, rest);
      end := Paint(colors, colors.gray, rest);
    } else {
      FieldBounds(rest, "msg=", Field(msg, msgIdx, msgEnd));
      out := FormatMessage(colors, line, levelEnd, out, msgIdx, msgEnd);
      end := PaintedMessage(colors, rest, msgIdx, msgEnd);
    }
    assert IsPaintedRest(colors, rest, end) && out == painted + end;
  }

  /** The part of formatLine after the level field when there is a message. */
  method FormatMessage(colors: Colors, line: string, levelEnd: int, out0: string, msgIdx: int, msgEnd: int) returns (out: string)
    requires 0 <= levelEnd <= |line| && Colours(colors, line[..levelEnd], out0)
    requires 0 <= msgIdx && msgIdx + 4 <= msgEnd <= |line| - levelEnd && "msg=" <= line[levelEnd..][msgIdx..]
    ensures Colours(colors, line, out)
    ensures out == out0 + PaintedMessage(colors, line[levelEnd..], msgIdx, msgEnd)
  {
    hide Colours, Render;
    var rest := line[levelEnd..];
    assert rest[msgIdx..][..4] == rest[msgIdx..msgIdx + 4] == "msg=";
    ghost var a, b, c := levelEnd + msgIdx, levelEnd + msgIdx + 4, levelEnd + msgEnd;
    out := WriteColored(colors, line[..levelEnd], out0, colors.gray, rest[..msgIdx]);
    assert line[..levelEnd] + rest[..msgIdx] == line[..a];
    out := WriteColored(colors, line[..a], out, colors.gray, "msg=");
    assert line[..a] + rest[msgIdx..msgIdx + 4] == line[..b];
    out := WriteColored(colors, line[..b], out, colors.message, rest[msgIdx + 4..msgEnd]);
    assert line[..b] + rest[msgIdx + 4..msgEnd] == line[..c];
    if msgEnd < |rest| {
      out := WriteColored(colors, line[..c], out, colors.gray, rest[msgEnd..]);
      assert line[..c] + rest[msgEnd..] == line;
    } else {
      assert line[..c] == line;
      assert rest[msgEnd..] == "";
      EmptyPaint(colors);
    }
    Regroup(out0, Paint(colors, colors.gray, rest[..msgIdx]), Paint(colors, colors.gray, "msg="),
      Paint(colors, colors.message, rest[msgIdx + 4..msgEnd]), Paint(colors, colors.gray, rest[msgEnd..]));
  }

  lemma Regroup(o: string, a: string, b: string, c: string, d: string)
    ensures o + a + b + c + d == o + (a + b + c + d)
    ensures d == "" ==> o + a + b + c == o + (a + b + c + d)
  {
    assert o + a + b + c == o + (a + b + c);
  }

  lemma EmptyPaint(colors: Colors)
    ensures Paint(colors, colors.gray, "") == ""
  {
  }

  // ---------- erasing colour codes ----------

  const ESC: char := '\U{001B}'

  /** An escape sequence of the form ESC [ ... m */
  predicate IsCode(s: string) {
    |s| >= 3 && s[0] == ESC && s[1] == '[' && s[|s|-1] == 'm' && forall i :: 2 <= i < |s| - 1 ==> s[i] != 'm'
  }

  /** Drop everything from an ESC to the next m. */
  function Erase(s: string, inCode: bool): string {
    if s == "" then ""
    else if inCode then Erase(s[1..], s[0] != 'm')
    else if s[0] == ESC then Erase(s[1..], true)
    else [s[0]] + Erase(s[1..], false)
  }

  lemma {:induction false} EraseText(a: string, b: string)
    requires ESC !in a
    ensures Erase(a + b, false) == a + Erase(b, false)
  {
    if a == "" {
      assert a + b == b;
    } else {
      assert a[0] in a && a == [a[0]] + a[1..];
      assert (a + b)[1..] == a[1..] + b;
      EraseText(a[1..], b);
    }
  }

  lemma {:induction false} EraseInside(a: string, b: string)
    requires 'm' !in a
    ensures Erase(a + "m" + b, true) == Erase(b, false)
  {
    var s := a + "m" + b;
    if a == "" {
      assert s == "m" + b && s[1..] == b;
    } else {
      assert a[0] in a && a == [a[0]] + a[1..];
      assert s[1..] == a[1..] + "m" + b;
      EraseInside(a[1..], b);
    }
  }

  lemma EraseCode(code: string, b: string)
    requires IsCode(code)
    ensures Erase(code + b, false) == Erase(b, false)
  {
    var inner := code[1..|code|-1];
    assert code == [ESC] + inner + "m";
    var s := code + b;
    assert s[0] == ESC && s[1..] == inner + "m" + b;
    forall c | c in inner ensures c != 'm' {
      var i :| 0 <= i < |inner| && inner[i] == c;
      assert inner[i] == code[i+1];
    }
    EraseInside(inner, b);
  }

  ghost predicate AllCodes(colors: Colors) {
    IsCode(colors.reset) && forall c :: c in Palette(colors) && c != "" ==> IsCode(c)
  }

  lemma {:induction false} EraseSegments(colors: Colors, segments: seq<Segment>, tail: string)
    requires AllCodes(colors) && ESC !in Texts(segments)
    requires forall i :: 0 <= i < |segments| ==> segments[i].color in Palette(colors)
    ensures Erase(RenderAll(colors, segments) + tail, false) == Texts(segments) + Erase(tail, false)
    decreases |segments|
  {
    hide Erase, AllCodes, Palette, Render;
    if segments == [] {
      assert "" + tail == tail;
    } else {
      var front, last := segments[..|segments|-1], segments[|segments|-1];
      assert segments[..|segments|-1] == front && last in segments;
      EraseSegments(colors, front, Render(colors, last) + tail);
      assert RenderAll(colors, segments) + tail == RenderAll(colors, front) + (Render(colors, last) + tail);
      EraseSegment(colors, last, tail);
      assert Texts(front) + (last.text + Erase(tail, false)) == Texts(segments) + Erase(tail, false);
    }
  }

  lemma EraseSegment(colors: Colors, s: Segment, tail: string)
    requires AllCodes(colors) && ESC !in s.text && s.color in Palette(colors)
    ensures Erase(Render(colors, s) + tail, false) == s.text + Erase(tail, false)
  {
    hide Erase, IsCode, Palette;
    EraseText(s.text, tail);
    if s.text == "" {
      assert "" + tail == tail;
    } else if s.color != "" {
      assert Render(colors, s) + tail == s.color + (s.text + (colors.reset + tail));
      EraseCode(s.color, s.text + (colors.reset + tail));
      EraseText(s.text, colors.reset + tail);
      EraseCode(colors.reset, tail);
    }
  }

  /** With colour codes erased, a coloured line is the line again. */
  lemma ErasedIsLine(colors: Colors, line: string, out: string)
    requires Colours(colors, line, out) && AllCodes(colors) && ESC !in line
    ensures Erase(out, false) == line
  {
    var segments :| IsCut(colors, line, out, segments);
    EraseSegments(colors, segments, "");
    assert out + "" == out && line + "" == line;
  }

  // ---------- the writer ----------

  /** Where the lines go. Any write may fail, and then leaves nothing behind. */
  class Sink {
    var written: seq<string>

    constructor ()
      ensures written == []
    {
      written := [];
    }

    method WriteString(s: string) returns (ok: bool)
      modifies this
      ensures written == if ok then old(written) + [s] else old(written)
    {
      ok := *;
      if ok {
        written := written + [s];
      }
    }
  }

  /** The entries are the coloured forms of the lines, in order. */
  ghost predicate AreColoured(colors: Colors, lines: seq<string>, entries: seq<string>) {
    |entries| == |lines| && forall i :: 0 <= i < |lines| ==> IsColouredLine(colors, lines[i], entries[i])
  }

  ghost predicate IsColouredLine(colors: Colors, line: string, entry: string) {
    entry != "" && entry[|entry|-1] == NEWLINE && Colours(colors, line, entry[..|entry|-1])
  }

  /** The lines before the failing write are written, its own line is gone, the rest is buffered. */
  ghost predicate LostOne(colors: Colors, all: string, entries: seq<string>, buf: string) {
    && |entries| < |Lines(all)| && AreColoured(colors, Lines(all)[..|entries|], entries)
    && Lines(buf) == Lines(all)[|entries| + 1..] && Tail(buf) == Tail(all)
  }

  class LogWriter {
    const w: Sink
    const colors: Colors
    var buf: string

    constructor (w: Sink, colors: Colors)
      ensures this.w == w && this.colors == colors && buf == ""
    {
      this.w := w;
      this.colors := colors;
      buf := "";
    }

    /** Without a failure the complete lines are written and the tail stays buffered. A failing
        write loses its line; the lines after it stay buffered. */
    method Write(p: string) returns (n: int, ok: bool)
      modifies this, w
      ensures n == |p|
      ensures |w.written| >= |old(w.written)| && w.written[..|old(w.written)|] == old(w.written)
      ensures var all, entries := old(buf) + p, w.written[|old(w.written)|..];
        if ok then AreColoured(colors, Lines(all), entries) && buf == Tail(all) else LostOne(colors, all, entries, buf)
    {
      hide Lines, Tail, Colours;
      ghost var before := w.written;
      n := |p|;
      buf := buf + p;
      ghost var all := buf;
      ghost var done: seq<string> := [];
      while true
        invariant |w.written| >= |before| && w.written[..|before|] == before
        invariant Lines(all) == done + Lines(buf) && Tail(all) == Tail(buf)
        invariant AreColoured(colors, done, w.written[|before|..])
        decreases |buf|
      {
        var idx := NewlineAt(buf);
        CutStep(buf);
        if idx < 0 {
          break;
        }
        var line := buf[..idx];
        buf := buf[idx+1..];
        assert Lines(all) == done + [line] + Lines(buf);
        var formatted := FormatLine(colors, line);
        ghost var entries := w.written[|before|..];
        ok := w.WriteString(formatted + [NEWLINE]);
        if !ok {
          assert w.written[|before|..] == entries;
          assert Lines(all)[..|done|] == done && Lines(all)[|done|+1..] == Lines(buf);
          return;
        }
        assert w.written[|before|..] == entries + [formatted + [NEWLINE]];
        done := done + [line];
      }
      assert done + [] == done;
      ok := true;
    }

    /** Writes an unfinished line, and forgets it even if the write fails. */
    method Flush() returns (ok: bool)
      modifies this, w
      ensures buf == ""
      ensures if old(buf) == "" || !ok then w.written == old(w.written)
        else exists entry :: w.written == old(w.written) + [entry] && IsColouredLine(colors, old(buf), entry)
    {
      if buf == "" {
        return true;
      }
      var formatted := FormatLine(colors, buf);
      ghost var line := buf;
      buf := "";
      assert (formatted + [NEWLINE])[..|formatted|] == formatted;
      assert IsColouredLine(colors, line, formatted + [NEWLINE]);
      ok := w.WriteString(formatted + [NEWLINE]);
    }
  }

  // ---------- runs ----------

  function Concat(chunks: seq<string>): string {
    if chunks == [] then "" else Concat(chunks[..|chunks|-1]) + chunks[|chunks|-1]
  }

  lemma ColouredConcat(colors: Colors, a: seq<string>, b: seq<string>, x: seq<string>, y: seq<string>)
    requires AreColoured(colors, a, x) && AreColoured(colors, b, y)
    ensures AreColoured(colors, a + b, x + y)
  {
    hide IsColouredLine;
  }

  /** Writing in two goes is writing at once: the lines and the tail depend on the data only. */
  lemma WritesConcat(colors: Colors, all: string, p: string, entries: seq<string>, more: seq<string>)
    requires AreColoured(colors, Lines(all), entries) && AreColoured(colors, Lines(Tail(all) + p), more)
    ensures AreColoured(colors, Lines(all + p), entries + more) && Tail(Tail(all) + p) == Tail(all + p)
  {
    hide Lines, Tail, AreColoured;
    SplitConcat(all, p);
    ColouredConcat(colors, Lines(all), Lines(Tail(all) + p), entries, more);
  }

  /** For any chunking: when no write fails, what is written are the coloured lines of the
      concatenated data, each once and in order, and the buffer is the tail. Lines that an earlier
      failure left in the buffer wait for the first write. */
  method WriteAll(lw: LogWriter, chunks: seq<string>) returns (ok: bool)
    modifies lw, lw.w
    ensures |lw.w.written| >= |old(lw.w.written)| && lw.w.written[..|old(lw.w.written)|] == old(lw.w.written)
    ensures var all := old(lw.buf) + Concat(chunks);
      ok && (chunks != [] || NEWLINE !in old(lw.buf)) ==>
        AreColoured(lw.colors, Lines(all), lw.w.written[|old(lw.w.written)|..]) && lw.buf == Tail(all)
  {
    hide Lines, Tail, AreColoured, LostOne;
    ghost var before, start := lw.w.written, lw.buf;
    ok := true;
    if |chunks| == 0 {
      assert chunks == [] && start + Concat([]) == start && before[|before|..] == [];
      if NEWLINE !in start {
        NothingWritten(lw.colors, start);
      }
      return;
    }
    ghost var all, entries := start, [];
    for i := 0 to |chunks|
      invariant all == start + Concat(chunks[..i])
      invariant |lw.w.written| >= |before| && lw.w.written == before + entries
      invariant if i == 0 then lw.buf == start && entries == [] else AreColoured(lw.colors, Lines(all), entries) && lw.buf == Tail(all)
    {
      ghost var was := lw.w.written;
      var n;
      n, ok := lw.Write(chunks[i]);
      assert lw.w.written == was + lw.w.written[|was|..];
      if !ok {
        assert lw.w.written[..|before|] == was[..|before|] == before;
        return;
      }
      if i > 0 {
        WritesConcat(lw.colors, all, chunks[i], entries, lw.w.written[|was|..]);
      }
      assert chunks[..i+1][..i] == chunks[..i];
      assert i == 0 ==> Concat(chunks[..i+1]) == chunks[i] && entries + lw.w.written[|was|..] == lw.w.written[|was|..];
      assert start + Concat(chunks[..i+1]) == all + chunks[i];
      all, entries := all + chunks[i], entries + lw.w.written[|was|..];
    }
    assert chunks[..|chunks|] == chunks;
    assert lw.w.written[..|before|] == before && lw.w.written[|before|..] == entries;
  }

  /** Without a newline there is no line, and everything is the tail. */
  lemma NothingWritten(colors: Colors, start: string)
    requires NEWLINE !in start
    ensures AreColoured(colors, Lines(start), []) && Tail(start) == start
  {
    SplitUnique(start, [], start);
  }
}
