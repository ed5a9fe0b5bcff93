/** Line wrapping of the terminal presentation (crates/app/src/presentation.rs).
    One iteration of the inner loop is one step of a small machine, so that both
    termination and divergence can be stated; widths are in UTF-8 bytes. */
module Wrapping {
  import opened Text
  import opened Windows

  // ------------------------------------------------------------------- bytes

  function Utf8Width(c: char): (w: nat)
    ensures 1 <= w <= 4
  {
    if c < '\U{80}' then 1 else if c < '\U{800}' then 2 else if c < '\U{10000}' then 3 else 4
  }

  /** The scalar values that `w` bytes of UTF-8 can hold: 7 bits in one byte, else 5w + 1 bits. */
  function Utf8Room(w: nat): nat
    requires w >= 1
  {
    if w == 1 then Power2(7) else Power2(5 * w + 1)
  }

  function Power2(n: nat): nat
  {
    if n == 0 then 1 else 2 * Power2(n - 1)
  }

  /** A character takes the fewest bytes that can hold it. */
  lemma Utf8WidthIsLeast(c: char, w: nat)
    requires 1 <= w <= 4
    ensures Utf8Width(c) <= w <==> c as int < Utf8Room(w)
  {
    PowersOfTwo();
  }

  lemma PowersOfTwo()
    ensures Power2(7) == 0x80 && Power2(11) == 0x800 && Power2(16) == 0x10000 && Power2(21) == 0x200000
  {
    assert Power2(3) == 8 && Power2(5) == 32;
    assert Power2(7) == 4 * Power2(5);
    assert Power2(9) == 4 * Power2(7);
    assert Power2(11) == 4 * Power2(9);
    assert Power2(13) == 4 * Power2(11);
    assert Power2(15) == 4 * Power2(13);
    assert Power2(16) == 2 * Power2(15);
    assert Power2(18) == 4 * Power2(16);
    assert Power2(20) == 4 * Power2(18);
    assert Power2(21) == 2 * Power2(20);
  }

  function ByteLen(s: string): nat
  {
    if s == "" then 0 else ByteLen(s[..|s| - 1]) + Utf8Width(s[|s| - 1])
  }

  lemma {:induction false} ByteLenConcat(a: string, b: string)
    ensures ByteLen(a + b) == ByteLen(a) + ByteLen(b)
  {
    if b == "" {
      assert a + b == a;
    } else {
      assert (a + b)[..|a + b| - 1] == a + b[..|b| - 1];
      ByteLenConcat(a, b[..|b| - 1]);
    }
  }

  lemma ByteLenTrimEnd(s: string)
    ensures ByteLen(TrimEnd(s)) <= ByteLen(s)
  {
    var b := TrimEndSplit(s);
    ByteLenConcat(TrimEnd(s), b);
  }

  function SaturatingSub(a: nat, b: nat): nat
  {
    if a < b then 0 else a - b
  }

  // ---------------------------------------------------------- fitting prefix

  /** How many characters fit in `width` bytes. */
  function FitCount(text: string, width: nat): (k: nat)
    ensures k <= |text|
  {
    if text == "" || Utf8Width(text[0]) > width then 0
    else 1 + FitCount(text[1..], width - Utf8Width(text[0]))
  }

  /** At least one character is taken even when none fits. */
  function FittingPrefix(text: string, width: nat): (k: nat)
    ensures k <= |text|
    ensures text != "" ==> k >= 1
  {
    var k := FitCount(text, width);
    if k == 0 && text != "" then 1 else k
  }

  lemma {:induction false} FitCountBytes(text: string, width: nat, i: nat)
    requires i <= |text|
    ensures i <= FitCount(text, width) <==> ByteLen(text[..i]) <= width
  {
    if i > 0 {
      var w := Utf8Width(text[0]);
      assert text[..i] == [text[0]] + text[1..][..i - 1];
      ByteLenConcat([text[0]], text[1..][..i - 1]);
      assert ByteLen([text[0]]) == w by {
        assert [text[0]][..0] == "";
      }
      if w <= width {
        FitCountBytes(text[1..], width - w, i - 1);
      }
    } else {
      assert text[..0] == "";
    }
  }

  /** No longer prefix fits. */
  predicate LongestFitting(text: string, width: nat, count: nat)
  {
    forall i :: 0 <= i <= |text| && ByteLen(text[..i]) <= width ==> i <= count
  }

  /** The byte offset of the longest prefix within `maxWidth`, or of one character if none fits. */
  method TakeFittingPrefix(text: string, maxWidth: nat) returns (end: nat, count: nat)
    ensures count == FittingPrefix(text, maxWidth) && end == ByteLen(text[..count])
    ensures LongestFitting(text, maxWidth, count) && (end <= maxWidth || count == 1)
  {
    var used := 0;
    end, count := 0, 0;
    assert text[..0] == "";
    while count < |text|
      invariant count <= |text| && used == end == ByteLen(text[..count]) <= maxWidth
      invariant count > 0 ==> end > 0
      decreases |text| - count
    {
      var charWidth := Utf8Width(text[count]);
      assert text[..count + 1][..count] == text[..count];
      if used + charWidth > maxWidth {
        break;
      }
      used := used + charWidth;
      count := count + 1;
      end := used;
    }
    forall i | 0 <= i <= |text| ensures i <= FitCount(text, maxWidth) <==> ByteLen(text[..i]) <= maxWidth {
      FitCountBytes(text, maxWidth, i);
    }
    if end == 0 && text != "" {
      assert text[..1][..0] == "";
      end, count := Utf8Width(text[0]), 1;
    }
  }

  // --------------------------------------------------------------- the machine

  /** What the wrapping loop carries. `rest[0]` is what remains of the segment
      being placed; the segments after it are still to come. */
  datatype Layout = Layout(lines: seq<string>, current: string, hasContent: bool, rest: seq<string>)

  function Available(w: nat, sep: string, s: Layout): nat
  {
    SaturatingSub(w, ByteLen(s.current) + ByteLen(if s.hasContent then sep else ""))
  }

  /** One iteration of the inner loop. */
  function Step(w: nat, cont: string, sep: string, s: Layout): Layout
    requires s.rest != []
  {
    var available := Available(w, sep, s);
    var remaining := s.rest[0];
    if ByteLen(remaining) <= available then
      Layout(s.lines, s.current + (if s.hasContent then sep else "") + remaining, true, s.rest[1..])
    else if s.hasContent then
      Layout(s.lines + [TrimEnd(s.current)], cont, false, s.rest)
    else if available == 0 then
      Layout(s.lines + (if TrimEnd(s.current) != "" then [TrimEnd(s.current)] else []), cont, false, s.rest)
    else
      var k := FittingPrefix(remaining, available);
      Layout(s.lines + [TrimEnd(s.current + remaining[..k])], cont, false, [remaining[k..]] + s.rest[1..])
  }

  function Iterate(w: nat, cont: string, sep: string, s: Layout, n: nat): Layout
    decreases n
  {
    if n == 0 || s.rest == [] then s else Iterate(w, cont, sep, Step(w, cont, sep, s), n - 1)
  }

  function Finish(s: Layout): seq<string>
  {
    if s.hasContent || s.lines == [] then s.lines + [TrimEnd(s.current)] else s.lines
  }

  predicate Filled(segments: seq<string>)
  {
    forall i :: 0 <= i < |segments| ==> segments[i] != ""
  }

  function NonEmpty(segments: seq<string>): (r: seq<string>)
    ensures Filled(r)
  {
    if segments == [] then []
    else (if segments[0] == "" then [] else [segments[0]]) + NonEmpty(segments[1..])
  }

  function Start(prefix: string, segments: seq<string>): Layout
  {
    Layout([], prefix, false, NonEmpty(segments))
  }

  function EffectiveWidth(prefix: string, cont: string, width: nat): (w: nat)
    ensures w >= width && w >= ByteLen(TrimEnd(prefix)) && w >= ByteLen(cont)
  {
    Max(Max(width, ByteLen(TrimEnd(prefix))), ByteLen(cont))
  }

  ghost predicate Halts(w: nat, cont: string, sep: string, s: Layout)
  {
    exists n: nat :: Iterate(w, cont, sep, s, n).rest == []
  }

  lemma {:induction false} IterateStep(w: nat, cont: string, sep: string, s: Layout, n: nat)
    ensures var t := Iterate(w, cont, sep, s, n);
            t.rest != [] ==> Iterate(w, cont, sep, s, n + 1) == Step(w, cont, sep, t)
    decreases n
  {
    if n > 0 && s.rest != [] {
      IterateStep(w, cont, sep, Step(w, cont, sep, s), n - 1);
    }
  }

  lemma HaltsStep(w: nat, cont: string, sep: string, s: Layout)
    requires s.rest != []
    ensures Halts(w, cont, sep, s) <==> Halts(w, cont, sep, Step(w, cont, sep, s))
  {
    var t := Step(w, cont, sep, s);
    if n: nat :| Iterate(w, cont, sep, s, n).rest == [] {
      assert Iterate(w, cont, sep, t, n - 1).rest == [];
    }
    if n: nat :| Iterate(w, cont, sep, t, n).rest == [] {
      assert Iterate(w, cont, sep, s, n + 1).rest == [];
    }
  }

  // -------------------------------------------------------------- termination

  function Chars(rest: seq<string>): nat
  {
    if rest == [] then 0 else |rest[0]| + 1 + Chars(rest[1..])
  }

  /** With room beyond the continuation prefix every layout is finished. */
  lemma {:induction false} WideEnoughHalts(w: nat, cont: string, sep: string, s: Layout)
    requires w > ByteLen(cont)
    ensures Halts(w, cont, sep, s)
    decreases Chars(s.rest), if s.hasContent then 2 else if Available(w, sep, s) == 0 then 1 else 0
  {
    if s.rest == [] {
      assert Iterate(w, cont, sep, s, 0).rest == [];
    } else {
      var t := Step(w, cont, sep, s);
      assert s.rest == [s.rest[0]] + s.rest[1..];
      WideEnoughHalts(w, cont, sep, t);
      HaltsStep(w, cont, sep, s);
    }
  }

  /** All segments fit on the first line, or the only segment is one character too wide for it. */
  predicate FitsFirstLine(w: nat, prefix: string, segments: seq<string>, sep: string)
  {
    var segs := NonEmpty(segments);
    || segs == []
    || ByteLen(prefix) + ByteLen(Join(segs, sep)) <= w
    || (|segs| == 1 && |segs[0]| == 1 && ByteLen(prefix) < w)
  }

  /** When wrapping returns. */
  predicate Returns(prefix: string, cont: string, segments: seq<string>, sep: string, width: nat)
  {
    var w := EffectiveWidth(prefix, cont, width);
    w > ByteLen(cont) || FitsFirstLine(w, prefix, segments, sep)
  }

  /** No room after the continuation prefix and something left to place. */
  predicate Stuck(w: nat, cont: string, s: Layout)
  {
    w == ByteLen(cont) && s.current == cont && !s.hasContent && s.rest != [] && s.rest[0] != ""
  }

  lemma ByteLenPositive(s: string)
    ensures ByteLen(s) == 0 <==> s == ""
  {
  }

  lemma {:induction false} StuckForever(w: nat, cont: string, sep: string, s: Layout, n: nat)
    requires Stuck(w, cont, s)
    ensures Stuck(w, cont, Iterate(w, cont, sep, s, n))
    decreases n
  {
    if n > 0 {
      ByteLenPositive(s.rest[0]);
      StuckForever(w, cont, sep, Step(w, cont, sep, s), n - 1);
    }
  }

  lemma StuckNeverHalts(w: nat, cont: string, sep: string, s: Layout)
    requires Stuck(w, cont, s)
    ensures !Halts(w, cont, sep, s)
  {
    forall n: nat ensures Iterate(w, cont, sep, s, n).rest != [] {
      StuckForever(w, cont, sep, s, n);
    }
  }

  /** The text of a line that already has content, with the segments still to come. */
  function Extended(sep: string, rest: seq<string>): string
  {
    if rest == [] then "" else sep + Join(rest, sep)
  }

  /** A segment that fits lengthens the line by its joiner and itself. */
  lemma StepFits(w: nat, cont: string, sep: string, s: Layout)
    requires s.rest != [] && s.rest[0] != "" && ByteLen(s.rest[0]) <= Available(w, sep, s)
    ensures var t := Step(w, cont, sep, s);
      && t.hasContent && t.rest == s.rest[1..]
      && ByteLen(t.current) ==
         ByteLen(s.current) + (if s.hasContent then ByteLen(sep) else 0) + ByteLen(s.rest[0]) <= w
  {
    var joiner := if s.hasContent then sep else "";
    ByteLenPositive(s.rest[0]);
    ByteLenConcat(s.current, joiner);
    ByteLenConcat(s.current + joiner, s.rest[0]);
  }

  /** With no room after the continuation prefix, a started line finishes exactly when all of the rest fits on it. */
  lemma {:induction false} StartedLineHalts(w: nat, cont: string, sep: string, s: Layout)
    requires w == ByteLen(cont) && s.hasContent && Filled(s.rest)
    requires ByteLen(s.current) <= w
    ensures Halts(w, cont, sep, s) <==> ByteLen(s.current) + ByteLen(Extended(sep, s.rest)) <= w
    decreases |s.rest|
  {
    if s.rest == [] {
      assert Iterate(w, cont, sep, s, 0).rest == [];
    } else {
      hide Halts;
      hide Extended;
      hide ByteLen;
      ByteLenPositive(s.rest[0]);
      HaltsStep(w, cont, sep, s);
      ExtendedCons(sep, s.rest);
      if ByteLen(s.rest[0]) <= Available(w, sep, s) {
        StepFits(w, cont, sep, s);
        hide Step;
        StartedLineHalts(w, cont, sep, Step(w, cont, sep, s));
      } else {
        StuckNeverHalts(w, cont, sep, Step(w, cont, sep, s));
      }
    }
  }

  lemma ExtendedCons(sep: string, rest: seq<string>)
    requires rest != []
    ensures ByteLen(Extended(sep, rest)) ==
            ByteLen(sep) + ByteLen(rest[0]) + ByteLen(Extended(sep, rest[1..]))
    ensures ByteLen(Join(rest, sep)) == ByteLen(rest[0]) + ByteLen(Extended(sep, rest[1..]))
  {
    ByteLenConcat(sep, Join(rest, sep));
    if |rest| > 1 {
      ByteLenConcat(rest[0] + sep, Join(rest[1..], sep));
      ByteLenConcat(rest[0], sep);
      ByteLenConcat(sep, Join(rest[1..], sep));
    }
  }

  lemma FirstLineHalts(w: nat, prefix: string, cont: string, segments: seq<string>, sep: string)
    requires w == ByteLen(cont)
    ensures Halts(w, cont, sep, Start(prefix, segments)) <==> FitsFirstLine(w, prefix, segments, sep)
  {
    var s := Start(prefix, segments);
    if s.rest == [] {
      assert Iterate(w, cont, sep, s, 0).rest == [];
    } else {
      hide Halts;
      hide Extended;
      hide ByteLen;
      hide Join;
      HaltsStep(w, cont, sep, s);
      ByteLenPositive(s.rest[0]);
      ByteLenPositive("");
      ExtendedCons(sep, s.rest);
      if ByteLen(s.rest[0]) <= Available(w, sep, s) {
        StepFits(w, cont, sep, s);
        hide Step;
        StartedLineHalts(w, cont, sep, Step(w, cont, sep, s));
      } else if Available(w, sep, s) == 0 {
        StuckNeverHalts(w, cont, sep, Step(w, cont, sep, s));
      } else {
        OverlongFirstSegment(w, prefix, cont, sep, s);
      }
    }
  }

  /** The first segment is split: only a segment of one character leaves nothing to place. */
  lemma OverlongFirstSegment(w: nat, prefix: string, cont: string, sep: string, s: Layout)
    requires w == ByteLen(cont) && s.rest != [] && Filled(s.rest)
    requires s.current == prefix && !s.hasContent && s.lines == []
    requires 0 < Available(w, sep, s) < ByteLen(s.rest[0])
    ensures Halts(w, cont, sep, s) <==> |s.rest| == 1 && |s.rest[0]| == 1
  {
    var x := s.rest[0];
    var available := Available(w, sep, s);
    var k := FittingPrefix(x, available);
    var t := Step(w, cont, sep, s);
    HaltsStep(w, cont, sep, s);
    FitCountBytes(x, available, |x|);
    assert x[..|x|] == x;
    hide Halts;
    if k < |x| {
      StuckNeverHalts(w, cont, sep, t);
    } else {
      assert x[k..] == "";
      assert t == Layout(t.lines, cont, false, [""] + s.rest[1..]);
      WideCharacterPlaced(w, cont, sep, t.lines, s.rest[1..]);
    }
  }

  /** After a lone wide character the continuation line is full: it finishes only if nothing follows. */
  lemma WideCharacterPlaced(w: nat, cont: string, sep: string, lines: seq<string>, rest: seq<string>)
    requires w == ByteLen(cont) && Filled(rest)
    ensures Halts(w, cont, sep, Layout(lines, cont, false, [""] + rest)) <==> rest == []
  {
    var t := Layout(lines, cont, false, [""] + rest);
    var u := Layout(lines, cont, true, rest);
    HaltsStep(w, cont, sep, t);
    assert cont + "" + "" == cont && t.rest[1..] == rest;
    assert Step(w, cont, sep, t) == u;
    hide Halts;
    StartedLineHalts(w, cont, sep, u);
    ByteLenPositive("");
    if rest != [] {
      hide Extended;
      ExtendedCons(sep, rest);
      ByteLenPositive(rest[0]);
    }
  }

  /** Wrapping returns exactly when `Returns` says so, for every input. */
  lemma WrappingHaltsExactly(prefix: string, cont: string, segments: seq<string>, sep: string, width: nat)
    ensures var w := EffectiveWidth(prefix, cont, width);
            Halts(w, cont, sep, Start(prefix, segments)) <==> Returns(prefix, cont, segments, sep, width)
  {
    var w := EffectiveWidth(prefix, cont, width);
    if w > ByteLen(cont) {
      WideEnoughHalts(w, cont, sep, Start(prefix, segments));
    } else {
      FirstLineHalts(w, prefix, cont, segments, sep);
    }
  }

  /** A width equal to the continuation prefix is not enough for text that must be continued. */
  lemma NarrowWidthDiverges()
    ensures EffectiveWidth("", "  ", 2) == 2 && !Halts(2, "  ", " ", Start("", ["abc"]))
  {
    assert NonEmpty(["abc"]) == ["abc"];
    assert ByteLen("  ") == 2 && ByteLen("abc") == 3 by {
      assert "  "[..1] == " " && "abc"[..2] == "ab" && "ab"[..1] == "a" && " "[..0] == "" && "a"[..0] == "";
      assert ByteLen(" ") == 1 && ByteLen("a") == 1 && ByteLen("ab") == 2;
    }
    assert TrimEnd("") == "";
    WrappingHaltsExactly("", "  ", ["abc"], " ", 2);
  }

  // -------------------------------------------------------------- the program

  lemma StepUnfolds(w: nat, cont: string, sep: string, lines: seq<string>, current: string, hasContent: bool,
                    remaining: string, later: seq<string>)
    ensures var joiner := if hasContent then sep else "";
      var available := SaturatingSub(w, ByteLen(current) + ByteLen(joiner));
      Step(w, cont, sep, Layout(lines, current, hasContent, [remaining] + later)) ==
      if ByteLen(remaining) <= available then Layout(lines, current + joiner + remaining, true, later)
      else if hasContent then Layout(lines + [TrimEnd(current)], cont, false, [remaining] + later)
      else if available == 0 then
        Layout(if TrimEnd(current) != "" then lines + [TrimEnd(current)] else lines, cont, false, [remaining] + later)
      else
        var k := FittingPrefix(remaining, available);
        Layout(lines + [TrimEnd(current + remaining[..k])], cont, false, [remaining[k..]] + later)
  {
    hide ByteLen;
    hide TrimEnd;
    hide FittingPrefix;
    assert ([remaining] + later)[1..] == later;
    assert lines + [] == lines;
  }

  /** One iteration of the inner loop. */
  method PlaceOnce(w: nat, cont: string, sep: string, lines0: seq<string>, current0: string, hasContent0: bool,
                   remaining0: string, ghost later: seq<string>)
      returns (placed: bool, lines: seq<string>, current: string, hasContent: bool, remaining: string)
    ensures Step(w, cont, sep, Layout(lines0, current0, hasContent0, [remaining0] + later)) ==
      Layout(lines, current, hasContent, if placed then later else [remaining] + later)
  {
    hide ByteLen;
    hide TrimEnd;
    hide LongestFitting;
    hide FittingPrefix;
    hide Step;
    StepUnfolds(w, cont, sep, lines0, current0, hasContent0, remaining0, later);
    placed, lines, current, hasContent, remaining := false, lines0, current0, hasContent0, remaining0;
    var joiner := if hasContent then sep else "";
    var available := SaturatingSub(w, ByteLen(current) + ByteLen(joiner));
    if ByteLen(remaining) <= available {
      current := current + joiner + remaining;
      hasContent := true;
      placed := true;
      return;
    }
    if hasContent {
      lines := lines + [TrimEnd(current)];
      current := cont;
      hasContent := false;
      return;
    }
    if available == 0 {
      var prefixLine := TrimEnd(current);
      if prefixLine != "" {
        lines := lines + [prefixLine];
      }
      current := cont;
      return;
    }
    var _, split := TakeFittingPrefix(remaining, available);
    current := current + remaining[..split];
    lines := lines + [TrimEnd(current)];
    current := cont;
    remaining := remaining[split..];
  }

  /** The inner loop: places one segment. `i` counts the machine's steps; it halts after `n`. */
  method PlaceSegment(w: nat, cont: string, sep: string, segment: string,
                      lines0: seq<string>, current0: string, hasContent0: bool,
                      ghost start: Layout, ghost later: seq<string>, ghost i0: nat, ghost n: nat)
      returns (lines: seq<string>, current: string, hasContent: bool, ghost i: nat)
    requires Iterate(w, cont, sep, start, n).rest == []
    requires Iterate(w, cont, sep, start, i0) == Layout(lines0, current0, hasContent0, [segment] + later)
    ensures Iterate(w, cont, sep, start, i) == Layout(lines, current, hasContent, later)
  {
    hide Iterate;
    hide Step;
    lines, current, hasContent, i := lines0, current0, hasContent0, i0;
    var remaining := segment;
    var placed := false;
    IterateHalted(w, cont, sep, start, i, n);
    while !placed
      invariant !placed ==> i < n
      invariant Iterate(w, cont, sep, start, i) ==
        Layout(lines, current, hasContent, if placed then later else [remaining] + later)
      decreases !placed, n - i
    {
      IterateStep(w, cont, sep, start, i);
      placed, lines, current, hasContent, remaining :=
        PlaceOnce(w, cont, sep, lines, current, hasContent, remaining, later);
      i := i + 1;
      if !placed {
        IterateHalted(w, cont, sep, start, i, n);
      }
    }
  }

  method RenderWrappedSegments(prefix: string, cont: string, segments: seq<string>, sep: string, width: nat)
      returns (lines: seq<string>)
    requires Returns(prefix, cont, segments, sep, width)
    ensures exists n: nat :: IsOutcome(prefix, cont, segments, sep, width, n, lines)
  {
    var w := EffectiveWidth(prefix, cont, width);
    ghost var start := Start(prefix, segments);
    WrappingHaltsExactly(prefix, cont, segments, sep, width);
    ghost var n: nat :| Iterate(w, cont, sep, start, n).rest == [];
    ghost var i: nat := 0;
    lines := [];
    var current := prefix;
    var hasContent := false;
    assert segments[0..] == segments;
    for j := 0 to |segments|
      invariant Iterate(w, cont, sep, start, i) == Layout(lines, current, hasContent, NonEmpty(segments[j..]))
    {
      assert segments[j..][1..] == segments[j + 1..];
      if segments[j] != "" {
        lines, current, hasContent, i :=
          PlaceSegment(w, cont, sep, segments[j], lines, current, hasContent, start, NonEmpty(segments[j + 1..]), i, n);
      }
    }
    if hasContent || lines == [] {
      lines := lines + [TrimEnd(current)];
    }
    assert IsOutcome(prefix, cont, segments, sep, width, i, lines);
  }

  /** `lines` is what the machine has produced when it halts after `n` steps. */
  ghost predicate IsOutcome(prefix: string, cont: string, segments: seq<string>, sep: string, width: nat,
                            n: nat, lines: seq<string>)
  {
    var t := Iterate(EffectiveWidth(prefix, cont, width), cont, sep, Start(prefix, segments), n);
    t.rest == [] && lines == Finish(t)
  }

  /** A machine that has halted by step `n` has not halted at a live step `i` unless `i < n`. */
  lemma {:induction false} IterateHalted(w: nat, cont: string, sep: string, s: Layout, i: nat, n: nat)
    requires Iterate(w, cont, sep, s, n).rest == [] && Iterate(w, cont, sep, s, i).rest != []
    ensures i < n
    decreases n
  {
    if n > 0 && i > 0 && s.rest != [] {
      IterateHalted(w, cont, sep, Step(w, cont, sep, s), i - 1, n - 1);
    }
  }

  // ------------------------------------------------------------ width of lines

  /** No character of `s` is wider than `m` bytes. */
  predicate NoWider(s: string, m: nat)
  {
    forall i :: 0 <= i < |s| ==> Utf8Width(s[i]) <= m
  }

  predicate AllNoWider(segments: seq<string>, m: nat)
  {
    forall i :: 0 <= i < |segments| ==> NoWider(segments[i], m)
  }

  predicate LinesWithin(lines: seq<string>, bound: nat)
  {
    forall i :: 0 <= i < |lines| ==> ByteLen(lines[i]) <= bound
  }

  /** A line with less room than `m` bytes, but some, can be overshot by a character of `m` bytes. */
  function Excess(w: nat, line: string, m: nat): nat
  {
    if ByteLen(line) < w < ByteLen(line) + m then ByteLen(line) + m - w else 0
  }

  /** By how much a line can exceed the width: only a fresh line with too little room for a
      character can, after the prefix or after the continuation. */
  function Overshoot(w: nat, prefix: string, cont: string, m: nat): (e: nat)
    ensures m >= 1 ==> e <= m - 1
  {
    Max(Excess(w, prefix, m), Excess(w, cont, m))
  }

  /** What every step keeps: produced lines respect the bound, a started line the
      width, and a line without content is the prefix (still first) or the continuation. */
  predicate Bounded(w: nat, prefix: string, cont: string, m: nat, s: Layout)
  {
    && LinesWithin(s.lines, w + Overshoot(w, prefix, cont, m))
    && (s.hasContent ==> ByteLen(s.current) <= w)
    && (!s.hasContent ==> s.current == cont || (s.current == prefix && s.lines == []))
    && AllNoWider(s.rest, m)
    && Filled(s.rest[if s.rest == [] then 0 else 1..])
    && (s.rest != [] && s.rest[0] == "" ==> s.current == cont && !s.hasContent)
  }

  lemma BoundedStep(w: nat, prefix: string, cont: string, sep: string, m: nat, s: Layout)
    requires m >= 1 && ByteLen(TrimEnd(prefix)) <= w && ByteLen(cont) <= w
    requires s.rest != [] && Bounded(w, prefix, cont, m, s)
    ensures Bounded(w, prefix, cont, m, Step(w, cont, sep, s))
  {
    hide ByteLen;
    hide TrimEnd;
    hide FittingPrefix;
    hide NoWider;
    var available := Available(w, sep, s);
    var x := s.rest[0];
    ByteLenTrimEnd(s.current);
    ByteLenPositive("");
    if ByteLen(x) <= available {
      var joiner := if s.hasContent then sep else "";
      ByteLenConcat(s.current, joiner);
      ByteLenConcat(s.current + joiner, x);
      ByteLenPositive(x);
    } else if !s.hasContent && available > 0 {
      SplitLineBound(w, s.current, x, available, m);
    }
  }

  /** A split line exceeds the width only by a first character that is wider than the room. */
  lemma SplitLineBound(w: nat, current: string, x: string, available: nat, m: nat)
    requires m >= 1 && available > 0 && NoWider(x, m) && x != "" && w == ByteLen(current) + available
    ensures ByteLen(TrimEnd(current + x[..FittingPrefix(x, available)])) <= w + Excess(w, current, m)
    ensures NoWider(x[FittingPrefix(x, available)..], m)
  {
    var k := FittingPrefix(x, available);
    FitCountBytes(x, available, k);
    ByteLenConcat(current, x[..k]);
    ByteLenTrimEnd(current + x[..k]);
    if FitCount(x, available) == 0 {
      assert x[..1][..0] == "";
    }
  }

  lemma {:induction false} BoundedIterate(w: nat, prefix: string, cont: string, sep: string, m: nat, s: Layout, n: nat)
    requires m >= 1 && ByteLen(TrimEnd(prefix)) <= w && ByteLen(cont) <= w && Bounded(w, prefix, cont, m, s)
    ensures Bounded(w, prefix, cont, m, Iterate(w, cont, sep, s, n))
    decreases n
  {
    hide Step;
    hide Bounded;
    if n > 0 && s.rest != [] {
      BoundedStep(w, prefix, cont, sep, m, s);
      BoundedIterate(w, prefix, cont, sep, m, Step(w, cont, sep, s), n - 1);
    }
  }

  lemma {:induction false} NonEmptyNoWider(segments: seq<string>, m: nat)
    requires AllNoWider(segments, m)
    ensures AllNoWider(NonEmpty(segments), m)
  {
    if segments != [] {
      NonEmptyNoWider(segments[1..], m);
    }
  }

  /** Every line of every outcome is within the effective width plus the overshoot, which
      is nothing when a fresh line has no room or room for `m` bytes, and `m - 1` at most,
      if no character has more than `m` bytes. */
  lemma OutcomeWithinWidth(prefix: string, cont: string, segments: seq<string>, sep: string, width: nat,
                           n: nat, lines: seq<string>, m: nat)
    requires IsOutcome(prefix, cont, segments, sep, width, n, lines)
    requires m >= 1 && AllNoWider(segments, m)
    ensures var w := EffectiveWidth(prefix, cont, width); LinesWithin(lines, w + Overshoot(w, prefix, cont, m))
  {
    var w := EffectiveWidth(prefix, cont, width);
    var start := Start(prefix, segments);
    NonEmptyNoWider(segments, m);
    BoundedIterate(w, prefix, cont, sep, m, start, n);
    var t := Iterate(w, cont, sep, start, n);
    ByteLenTrimEnd(t.current);
  }

  /** A character wider than the line is placed alone on it. */
  lemma WideCharacterStep(x: string)
    requires |x| == 1 && ByteLen(x) == 4 && !IsWhitespace(x[0])
    ensures Step(1, "", " ", Layout([], "", false, [x])) == Layout([x], "", false, [""])
  {
    assert FittingPrefix(x, 1) == 1 by {
      assert x[..0] == "";
    }
    assert x[..1] == x && x[1..] == "" && "" + x == x;
    assert [x[1..]] + [x][1..] == [""];
  }

  lemma TwoSteps(w: nat, cont: string, sep: string, s: Layout, t: Layout, u: Layout)
    requires s.rest != [] && t.rest != [] && Step(w, cont, sep, s) == t && Step(w, cont, sep, t) == u
    ensures Iterate(w, cont, sep, s, 2) == u
  {
    hide Step;
    assert Iterate(w, cont, sep, s, 2) == Iterate(w, cont, sep, t, 1) == Iterate(w, cont, sep, u, 0);
  }

  /** The bound is reached: one four-byte character on a line one byte wide. */
  lemma OvershootIsReached()
    ensures ByteLen("\U{1F600}") == 1 + 4 - 1
    ensures IsOutcome("", "", ["\U{1F600}"], " ", 1, 2, ["\U{1F600}", ""])
  {
    var x := "\U{1F600}";
    assert x[..0] == "" && ByteLen(x) == 4;
    var one: seq<string> := [x];
    assert one[1..] == [] && NonEmpty(one) == one;
    var t := Layout([x], "", false, [""]);
    var u := Layout([x], "", true, []);
    WideCharacterStep(x);
    assert Step(1, "", " ", t) == u;
    TwoSteps(1, "", " ", Layout([], "", false, [x]), t, u);
    hide Iterate;
    hide Step;
  }

  // ------------------------------------------------------- nothing lost or moved

  /** The characters that are not white space, in order. */
  function Ink(s: string): string
  {
    if s == "" then "" else Ink(s[..|s| - 1]) + (if IsWhitespace(s[|s| - 1]) then "" else [s[|s| - 1]])
  }

  function Flat(parts: seq<string>): string
  {
    if parts == [] then "" else parts[0] + Flat(parts[1..])
  }

  lemma {:induction false} InkConcat(a: string, b: string)
    ensures Ink(a + b) == Ink(a) + Ink(b)
  {
    if b == "" {
      assert a + b == a;
    } else {
      assert (a + b)[..|a + b| - 1] == a + b[..|b| - 1];
      InkConcat(a, b[..|b| - 1]);
    }
  }

  lemma {:induction false} InkBlank(s: string)
    requires Blank(s)
    ensures Ink(s) == ""
  {
    if s != "" {
      InkBlank(s[..|s| - 1]);
    }
  }

  lemma InkTrimEnd(s: string)
    ensures Ink(TrimEnd(s)) == Ink(s)
  {
    var b := TrimEndSplit(s);
    InkConcat(TrimEnd(s), b);
    InkBlank(b);
  }

  lemma {:induction false} FlatConcat(a: seq<string>, b: seq<string>)
    ensures Flat(a + b) == Flat(a) + Flat(b)
  {
    if a == [] {
      assert a + b == b;
    } else {
      assert (a + b)[1..] == a[1..] + b;
      FlatConcat(a[1..], b);
    }
  }

  /** The ink on finished lines, on the current line and still to be placed, in that order. */
  function TotalInk(s: Layout): string
  {
    Ink(Flat(s.lines)) + Ink(s.current) + Ink(Flat(s.rest))
  }

  lemma InkLineAdded(lines: seq<string>, line: string)
    ensures Ink(Flat(lines + [TrimEnd(line)])) == Ink(Flat(lines)) + Ink(line)
  {
    FlatConcat(lines, [TrimEnd(line)]);
    assert [TrimEnd(line)][1..] == [] && Flat([TrimEnd(line)]) == TrimEnd(line);
    InkConcat(Flat(lines), TrimEnd(line));
    InkTrimEnd(line);
  }

  lemma InkFlatCons(x: string, rest: seq<string>)
    ensures Ink(Flat([x] + rest)) == Ink(x) + Ink(Flat(rest))
  {
    assert ([x] + rest)[1..] == rest;
    InkConcat(x, Flat(rest));
  }

  /** A step moves ink from what remains to the current line or from there to a finished one. */
  lemma InkStep(w: nat, cont: string, sep: string, s: Layout)
    requires s.rest != [] && Blank(cont) && Blank(sep)
    ensures TotalInk(Step(w, cont, sep, s)) == TotalInk(s)
  {
    hide Ink;
    hide Flat;
    hide TrimEnd;
    hide ByteLen;
    var available := Available(w, sep, s);
    InkBlank(cont);
    if ByteLen(s.rest[0]) <= available {
      var joiner := if s.hasContent then sep else "";
      InkPlaced(s.lines, s.current, joiner, s.rest[0], s.rest[1..]);
      assert s.rest == [s.rest[0]] + s.rest[1..];
    } else if s.hasContent || TrimEnd(s.current) != "" || available > 0 {
      if s.hasContent || available == 0 {
        InkLineAdded(s.lines, s.current);
      } else {
        InkSplit(s.lines, s.current, s.rest[0], FittingPrefix(s.rest[0], available), s.rest[1..]);
        assert s.rest == [s.rest[0]] + s.rest[1..];
      }
    } else {
      InkTrimEnd(s.current);
      InkBlank("");
      assert s.lines + [] == s.lines;
    }
  }

  lemma InkPlaced(lines: seq<string>, current: string, joiner: string, x: string, rest: seq<string>)
    requires Blank(joiner)
    ensures Ink(Flat(lines)) + Ink(current + joiner + x) + Ink(Flat(rest)) ==
            Ink(Flat(lines)) + Ink(current) + Ink(Flat([x] + rest))
  {
    hide Ink;
    hide Flat;
    InkFlatCons(x, rest);
    InkBlank(joiner);
    InkConcat(current, joiner);
    InkConcat(current + joiner, x);
    assert Ink(current) + "" == Ink(current);
    Regroup(Ink(Flat(lines)), Ink(current), Ink(x), Ink(Flat(rest)));
  }

  lemma InkSplit(lines: seq<string>, current: string, x: string, k: nat, rest: seq<string>)
    requires k <= |x|
    ensures Ink(Flat(lines + [TrimEnd(current + x[..k])])) + Ink(Flat([x[k..]] + rest)) ==
            Ink(Flat(lines)) + Ink(current) + Ink(Flat([x] + rest))
  {
    hide Ink;
    hide Flat;
    hide TrimEnd;
    InkLineAdded(lines, current + x[..k]);
    InkConcat(current, x[..k]);
    InkFlatCons(x[k..], rest);
    InkFlatCons(x, rest);
    InkConcat(x[..k], x[k..]);
    assert x == x[..k] + x[k..];
    Regroup(Ink(Flat(lines)), Ink(current), Ink(x[..k]), Ink(x[k..]) + Ink(Flat(rest)));
    assert Ink(x) + Ink(Flat(rest)) == Ink(x[..k]) + (Ink(x[k..]) + Ink(Flat(rest)));
  }

  lemma Regroup(a: string, b: string, c: string, d: string)
    ensures a + (b + c) + d == a + b + (c + d)
  {
  }

  lemma {:induction false} InkIterate(w: nat, cont: string, sep: string, s: Layout, n: nat)
    requires Blank(cont) && Blank(sep)
    ensures TotalInk(Iterate(w, cont, sep, s, n)) == TotalInk(s)
    decreases n
  {
    hide Step;
    hide TotalInk;
    hide Blank;
    if n > 0 && s.rest != [] {
      InkStep(w, cont, sep, s);
      InkIterate(w, cont, sep, Step(w, cont, sep, s), n - 1);
    }
  }

  lemma {:induction false} FlatNonEmpty(segments: seq<string>)
    ensures Flat(NonEmpty(segments)) == Flat(segments)
  {
    if segments != [] {
      FlatNonEmpty(segments[1..]);
      FlatConcat(if segments[0] == "" then [] else [segments[0]], NonEmpty(segments[1..]));
    }
  }

  /** Finishing drops only a blank line in progress. */
  lemma FinishInk(cont: string, t: Layout)
    requires t.rest == [] && Blank(cont)
    requires t.hasContent || t.lines == [] || t.current == cont
    ensures Ink(Flat(Finish(t))) == TotalInk(t)
  {
    InkLineAdded(t.lines, t.current);
    InkBlank(cont);
    assert Flat(t.rest) == "" && Ink("") == "";
    hide Ink;
    hide Flat;
    hide TrimEnd;
    assert TotalInk(t) == Ink(Flat(t.lines)) + Ink(t.current);
  }

  /** The layouts the machine reaches from its start are bounded, for any characters. */
  lemma BoundedFromStart(prefix: string, cont: string, segments: seq<string>, sep: string, width: nat, n: nat)
    ensures var w := EffectiveWidth(prefix, cont, width);
            Bounded(w, prefix, cont, 4, Iterate(w, cont, sep, Start(prefix, segments), n))
  {
    NonEmptyNoWider(segments, 4);
    BoundedIterate(EffectiveWidth(prefix, cont, width), prefix, cont, sep, 4, Start(prefix, segments), n);
  }

  /** With blank separator and continuation, the ink of the lines is the ink of the
      prefix followed by the ink of the segments: nothing lost, repeated or moved. */
  lemma OutcomeKeepsInk(prefix: string, cont: string, segments: seq<string>, sep: string, width: nat,
                        n: nat, lines: seq<string>)
    requires IsOutcome(prefix, cont, segments, sep, width, n, lines) && Blank(cont) && Blank(sep)
    ensures Ink(Flat(lines)) == Ink(prefix) + Ink(Flat(segments))
  {
    hide Iterate;
    hide Ink;
    hide TrimEnd;
    hide ByteLen;
    hide EffectiveWidth;
    var w := EffectiveWidth(prefix, cont, width);
    var start := Start(prefix, segments);
    var t := Iterate(w, cont, sep, start, n);
    BoundedFromStart(prefix, cont, segments, sep, width, n);
    FinishInk(cont, t);
    InkIterate(w, cont, sep, start, n);
    FlatNonEmpty(segments);
    InkBlank("");
    assert "" + Ink(prefix) == Ink(prefix);
  }

  // ------------------------------------------------------------ greedy layout

  function Concat(groups: seq<seq<string>>): seq<string>
  {
    if groups == [] then [] else Concat(groups[..|groups| - 1]) + groups[|groups| - 1]
  }

  /** What line `i` starts with. */
  function Lead(first: string, cont: string, i: nat): string
  {
    if i == 0 then first else cont
  }

  /** Line `i` with the segments of its group on it. */
  function LineText(first: string, cont: string, sep: string, groups: seq<seq<string>>, i: nat): string
    requires i < |groups|
  {
    Lead(first, cont, i) + Join(groups[i], sep)
  }

  /** `next` and its separator do not fit on line `i`. */
  predicate BreaksBefore(w: nat, first: string, cont: string, sep: string, groups: seq<seq<string>>, i: nat, next: string)
    requires i < |groups|
  {
    ByteLen(LineText(first, cont, sep, groups, i)) + ByteLen(sep) + ByteLen(next) > w
  }

  /** Every group is on one line, which it fits. */
  ghost predicate Placed(w: nat, first: string, cont: string, sep: string, groups: seq<seq<string>>, lines: seq<string>)
  {
    && |lines| == |groups|
    && forall i :: 0 <= i < |groups| ==>
         && groups[i] != [] && ByteLen(LineText(first, cont, sep, groups, i)) <= w
         && lines[i] == TrimEnd(LineText(first, cont, sep, groups, i))
  }

  /** A line ends only where the next segment does not fit. */
  ghost predicate Forced(w: nat, first: string, cont: string, sep: string, groups: seq<seq<string>>)
  {
    forall i :: 0 <= i < |groups| - 1 ==> EndsForced(w, first, cont, sep, groups, i)
  }

  predicate EndsForced(w: nat, first: string, cont: string, sep: string, groups: seq<seq<string>>, i: nat)
    requires i + 1 < |groups|
  {
    groups[i + 1] != [] && BreaksBefore(w, first, cont, sep, groups, i, groups[i + 1][0])
  }

  /** The lines are the segments in order, as many on each line as fit. */
  ghost predicate Greedy(w: nat, first: string, cont: string, sep: string, words: seq<string>,
                         groups: seq<seq<string>>, lines: seq<string>)
  {
    && Concat(groups) == words
    && Placed(w, first, cont, sep, groups, lines) && Forced(w, first, cont, sep, groups)
  }

  /** Each segment fits on a line of its own. */
  predicate AllFit(w: nat, cont: string, words: seq<string>)
  {
    forall i :: 0 <= i < |words| ==> ByteLen(cont) + ByteLen(words[i]) <= w
  }

  /** The machine under way: `groups` are on finished lines, `line` is on the line in progress. */
  ghost predicate Progress(w: nat, base: seq<string>, first: string, cont: string, sep: string,
                           groups: seq<seq<string>>, line: seq<string>, s: Layout)
  {
    && base <= s.lines && Placed(w, first, cont, sep, groups, s.lines[|base|..])
    && s.current == Lead(first, cont, |groups|) + Join(line, sep)
    && (s.hasContent <==> line != []) && (s.hasContent ==> ByteLen(s.current) <= w)
    && Forced(w, first, cont, sep, groups) && Filled(s.rest)
    && line + s.rest != [] && AllFit(w, cont, if line == [] then s.rest[1..] else s.rest)
    && (line == [] ==> ByteLen(s.current) + ByteLen(s.rest[0]) <= w)
    && (groups != [] ==> BreaksBefore(w, first, cont, sep, groups, |groups| - 1, (line + s.rest)[0]))
  }

  lemma {:induction false} JoinAppend(parts: seq<string>, x: string, sep: string)
    ensures Join(parts + [x], sep) == if parts == [] then x else Join(parts, sep) + sep + x
  {
    if parts == [] {
      assert parts + [x] == [x];
    } else if |parts| == 1 {
      assert parts + [x] == [parts[0], x] && (parts + [x])[1..] == [x];
    } else {
      JoinAppend(parts[1..], x, sep);
      assert (parts + [x])[1..] == parts[1..] + [x];
      assert parts[0] + sep + (Join(parts[1..], sep) + sep + x) == parts[0] + sep + Join(parts[1..], sep) + sep + x;
    }
  }

  /** The next segment fits on the line in progress. */
  lemma ProgressPlace(w: nat, base: seq<string>, first: string, cont: string, sep: string,
                      groups: seq<seq<string>>, line: seq<string>, s: Layout)
    requires Progress(w, base, first, cont, sep, groups, line, s) && s.rest != []
    requires ByteLen(s.rest[0]) <= Available(w, sep, s)
    ensures Progress(w, base, first, cont, sep, groups, line + [s.rest[0]], Step(w, cont, sep, s))
    ensures Step(w, cont, sep, s).rest == s.rest[1..]
  {
    hide Placed;
    hide Forced;
    hide BreaksBefore;
    hide ByteLen;
    hide Join;
    hide Lead;
    hide Available;
    hide AllFit;
    var x := s.rest[0];
    var t := Step(w, cont, sep, s);
    assert line + s.rest == (line + [x]) + t.rest;
    StepFits(w, cont, sep, s);
    LineGrows(Lead(first, cont, |groups|), line, x, sep);
    if line != [] {
      AllFitTail(w, cont, s.rest);
    }
  }

  lemma LineGrows(lead: string, line: seq<string>, x: string, sep: string)
    ensures lead + Join(line + [x], sep) == lead + Join(line, sep) + (if line != [] then sep else "") + x
  {
    JoinAppend(line, x, sep);
    JoinNone(sep);
    hide Join;
    if line != [] {
      assert lead + (Join(line, sep) + sep + x) == lead + Join(line, sep) + sep + x;
    } else {
      assert lead + "" + "" + x == lead + x;
    }
  }

  lemma JoinNone(sep: string)
    ensures Join([], sep) == ""
  {
  }

  lemma AllFitTail(w: nat, cont: string, rest: seq<string>)
    requires rest != [] && AllFit(w, cont, rest)
    ensures AllFit(w, cont, rest[1..])
  {
  }

  /** The next segment does not fit: the line ends. */
  lemma ProgressBreak(w: nat, base: seq<string>, first: string, cont: string, sep: string,
                      groups: seq<seq<string>>, line: seq<string>, s: Layout)
    requires Progress(w, base, first, cont, sep, groups, line, s) && s.rest != [] && line != []
    requires ByteLen(s.rest[0]) > Available(w, sep, s)
    ensures Progress(w, base, first, cont, sep, groups + [line], [], Step(w, cont, sep, s))
    ensures Step(w, cont, sep, s).rest == s.rest
  {
    hide ByteLen;
    hide Join;
    hide TrimEnd;
    var t := Step(w, cont, sep, s);
    var groups' := groups + [line];
    JoinNone(sep);
    assert t.current == cont + Join([], sep);
    assert t.lines[|base|..] == s.lines[|base|..] + [TrimEnd(s.current)];
    assert [] + t.rest == t.rest;
    ForcedMore(w, first, cont, sep, groups, line, s.rest);
    assert LineText(first, cont, sep, groups', |groups|) == s.current;
    hide Forced;
    PlacedMore(w, first, cont, sep, groups, s.lines[|base|..], line, TrimEnd(s.current));
    hide Placed;
  }

  lemma PlacedMore(w: nat, first: string, cont: string, sep: string, groups: seq<seq<string>>, lines: seq<string>,
                   line: seq<string>, text: string)
    requires Placed(w, first, cont, sep, groups, lines) && line != []
    requires ByteLen(LineText(first, cont, sep, groups + [line], |groups|)) <= w
    requires text == TrimEnd(LineText(first, cont, sep, groups + [line], |groups|))
    ensures Placed(w, first, cont, sep, groups + [line], lines + [text])
  {
    hide ByteLen;
    hide TrimEnd;
    hide Join;
    hide Lead;
    var groups' := groups + [line];
    assert forall i :: 0 <= i < |groups| ==> groups'[i] == groups[i];
    assert forall i :: 0 <= i < |groups| ==>
      LineText(first, cont, sep, groups', i) == LineText(first, cont, sep, groups, i);
  }

  lemma ForcedMore(w: nat, first: string, cont: string, sep: string, groups: seq<seq<string>>, line: seq<string>,
                   rest: seq<string>)
    requires Forced(w, first, cont, sep, groups) && line != []
    requires groups != [] ==> BreaksBefore(w, first, cont, sep, groups, |groups| - 1, (line + rest)[0])
    ensures Forced(w, first, cont, sep, groups + [line])
  {
    hide ByteLen;
    hide Join;
    hide Lead;
    var groups' := groups + [line];
    forall i | 0 <= i < |groups'| - 1 ensures EndsForced(w, first, cont, sep, groups', i) {
      assert LineText(first, cont, sep, groups', i) == LineText(first, cont, sep, groups, i);
      if i < |groups| - 1 {
        assert EndsForced(w, first, cont, sep, groups, i);
      }
    }
  }

  lemma ConcatAppend(groups: seq<seq<string>>, line: seq<string>)
    ensures Concat(groups + [line]) == Concat(groups) + line
  {
    assert (groups + [line])[..|groups|] == groups;
  }

  /** A run of the machine from a line in progress ends in the greedy layout. */
  lemma {:induction false} ProgressRun(w: nat, base: seq<string>, first: string, cont: string, sep: string,
                                       groups: seq<seq<string>>, line: seq<string>, s: Layout, n: nat)
      returns (all: seq<seq<string>>)
    requires Progress(w, base, first, cont, sep, groups, line, s) && Iterate(w, cont, sep, s, n).rest == []
    ensures var lines := Finish(Iterate(w, cont, sep, s, n));
      base <= lines && Greedy(w, first, cont, sep, Concat(groups) + line + s.rest, all, lines[|base|..])
    decreases n
  {
    hide Progress;
    hide Iterate;
    hide Step;
    hide Finish;
    hide Greedy;
    hide Concat;
    hide ByteLen;
    hide Available;
    IterateUnfolds(w, cont, sep, s, n);
    if s.rest == [] {
      all := groups + [line];
      FinishGreedy(w, base, first, cont, sep, groups, line, s);
    } else {
      var t := Step(w, cont, sep, s);
      if ByteLen(s.rest[0]) <= Available(w, sep, s) {
        RegroupPlaced(groups, line, s.rest);
        ProgressPlace(w, base, first, cont, sep, groups, line, s);
        all := ProgressRun(w, base, first, cont, sep, groups, line + [s.rest[0]], t, n - 1);
      } else {
        EmptyLineFits(w, base, first, cont, sep, groups, line, s);
        RegroupEnded(groups, line, s.rest);
        ProgressBreak(w, base, first, cont, sep, groups, line, s);
        all := ProgressRun(w, base, first, cont, sep, groups + [line], [], t, n - 1);
      }
    }
  }

  lemma IterateUnfolds(w: nat, cont: string, sep: string, s: Layout, n: nat)
    ensures s.rest == [] ==> Iterate(w, cont, sep, s, n) == s
    ensures s.rest != [] && Iterate(w, cont, sep, s, n).rest == [] ==>
      n > 0 && Iterate(w, cont, sep, s, n) == Iterate(w, cont, sep, Step(w, cont, sep, s), n - 1)
  {
  }

  lemma RegroupEnded(groups: seq<seq<string>>, line: seq<string>, rest: seq<string>)
    ensures Concat(groups + [line]) + [] + rest == Concat(groups) + line + rest
  {
    ConcatAppend(groups, line);
  }

  lemma RegroupPlaced(groups: seq<seq<string>>, line: seq<string>, rest: seq<string>)
    requires rest != []
    ensures Concat(groups) + (line + [rest[0]]) + rest[1..] == Concat(groups) + line + rest
  {
  }

  /** A segment that does not fit stands before a line with something on it. */
  lemma EmptyLineFits(w: nat, base: seq<string>, first: string, cont: string, sep: string,
                      groups: seq<seq<string>>, line: seq<string>, s: Layout)
    requires Progress(w, base, first, cont, sep, groups, line, s) && s.rest != []
    requires ByteLen(s.rest[0]) > Available(w, sep, s)
    ensures line != []
  {
    hide Placed;
    hide Forced;
    hide BreaksBefore;
  }

  lemma FinishGreedy(w: nat, base: seq<string>, first: string, cont: string, sep: string,
                     groups: seq<seq<string>>, line: seq<string>, s: Layout)
    requires Progress(w, base, first, cont, sep, groups, line, s) && s.rest == []
    ensures var lines := Finish(s);
      base <= lines && Greedy(w, first, cont, sep, Concat(groups) + line + s.rest, groups + [line], lines[|base|..])
  {
    hide ByteLen;
    hide Join;
    hide TrimEnd;
    var lines := Finish(s);
    assert lines[|base|..] == s.lines[|base|..] + [TrimEnd(s.current)];
    ConcatAppend(groups, line);
    assert Concat(groups) + line + s.rest == Concat(groups) + line;
    ForcedMore(w, first, cont, sep, groups, line, s.rest);
    PlacedMore(w, first, cont, sep, groups, s.lines[|base|..], line, TrimEnd(s.current));
    hide Placed;
    hide Forced;
  }

  /** No segment is wider than the line it may have to start: the first one fits after
      the prefix, unless that leaves no room at all, and the others after the continuation. */
  predicate NoneTooWide(w: nat, prefix: string, cont: string, words: seq<string>)
  {
    words != [] ==>
      && AllFit(w, cont, words[1..])
      && ByteLen(if ByteLen(prefix) < w then prefix else cont) + ByteLen(words[0]) <= w
  }

  /** The lines are laid out greedily. A prefix that leaves no room has a line of its
      own, or none when it is blank. */
  ghost predicate WrappedGreedily(w: nat, prefix: string, cont: string, sep: string, words: seq<string>, lines: seq<string>)
  {
    if words == [] then lines == [TrimEnd(prefix)]
    else if ByteLen(prefix) < w then exists groups :: Greedy(w, prefix, cont, sep, words, groups, lines)
    else
      var alone := if Blank(prefix) then [] else [TrimEnd(prefix)];
      alone <= lines && exists groups :: Greedy(w, cont, cont, sep, words, groups, lines[|alone|..])
  }

  lemma {:induction false} BlankTrimEnd(s: string)
    ensures TrimEnd(s) == "" <==> Blank(s)
  {
    if s != "" {
      var n := |s| - 1;
      assert s == s[..n] + [s[n]];
      if IsWhitespace(s[n]) {
        BlankTrimEnd(s[..n]);
      }
    }
  }

  lemma {:induction false} FilledIsNonEmpty(segments: seq<string>)
    requires Filled(segments)
    ensures NonEmpty(segments) == segments
  {
    if segments != [] {
      FilledIsNonEmpty(segments[1..]);
    }
  }

  lemma ProgressStarts(w: nat, base: seq<string>, first: string, cont: string, sep: string, words: seq<string>)
    requires words != [] && Filled(words) && AllFit(w, cont, words[1..])
    requires ByteLen(first) + ByteLen(words[0]) <= w
    ensures Progress(w, base, first, cont, sep, [], [], Layout(base, first, false, words))
  {
  }

  /** In every layout where no segment is too wide for a fresh line, the segments are
      laid out greedily, whole and in order. */
  lemma OutcomeIsGreedy(prefix: string, cont: string, segments: seq<string>, sep: string, width: nat,
                        n: nat, lines: seq<string>)
    requires IsOutcome(prefix, cont, segments, sep, width, n, lines) && Filled(segments)
    requires NoneTooWide(EffectiveWidth(prefix, cont, width), prefix, cont, segments)
    ensures WrappedGreedily(EffectiveWidth(prefix, cont, width), prefix, cont, sep, segments, lines)
  {
    hide Greedy;
    hide Iterate;
    hide Step;
    hide EffectiveWidth;
    hide ByteLen;
    hide TrimEnd;
    FilledIsNonEmpty(segments);
    var w, s := EffectiveWidth(prefix, cont, width), Start(prefix, segments);
    IterateUnfolds(w, cont, sep, s, n);
    if segments != [] {
      if ByteLen(prefix) < w {
        var groups := RunFromStart(w, [], prefix, cont, sep, segments, n);
        assert lines[0..] == lines;
      } else {
        var alone := PrefixAlone(w, prefix, cont, sep, segments);
        var groups := RunFromStart(w, alone, cont, cont, sep, segments, n - 1);
      }
    }
  }

  /** A run from a fresh line. */
  lemma RunFromStart(w: nat, base: seq<string>, first: string, cont: string, sep: string, words: seq<string>, n: nat)
      returns (groups: seq<seq<string>>)
    requires words != [] && Filled(words) && AllFit(w, cont, words[1..])
    requires ByteLen(first) + ByteLen(words[0]) <= w
    requires Iterate(w, cont, sep, Layout(base, first, false, words), n).rest == []
    ensures var lines := Finish(Iterate(w, cont, sep, Layout(base, first, false, words), n));
      base <= lines && Greedy(w, first, cont, sep, words, groups, lines[|base|..])
  {
    hide Greedy;
    hide Iterate;
    hide Progress;
    hide ByteLen;
    hide Finish;
    RegroupStart(words);
    ProgressStarts(w, base, first, cont, sep, words);
    groups := ProgressRun(w, base, first, cont, sep, [], [], Layout(base, first, false, words), n);
  }

  lemma RegroupStart(words: seq<string>)
    ensures Concat([]) + [] + words == words
  {
  }

  /** A prefix that leaves no room is a line of its own, unless it is blank. */
  lemma PrefixAlone(w: nat, prefix: string, cont: string, sep: string, words: seq<string>) returns (alone: seq<string>)
    requires words != [] && words[0] != "" && ByteLen(prefix) >= w
    ensures alone == if Blank(prefix) then [] else [TrimEnd(prefix)]
    ensures Step(w, cont, sep, Layout([], prefix, false, words)) == Layout(alone, cont, false, words)
  {
    ByteLenPositive(words[0]);
    BlankTrimEnd(prefix);
    alone := if Blank(prefix) then [] else [TrimEnd(prefix)];
  }

  // ----------------------------------------------------- white-space split text

  function WordEnd(s: string): (i: nat)
    ensures i <= |s| && (i < |s| ==> IsWhitespace(s[i]))
    ensures forall j :: 0 <= j < i ==> !IsWhitespace(s[j])
  {
    if s == "" || IsWhitespace(s[0]) then 0 else 1 + WordEnd(s[1..])
  }

  function SplitWhitespace(s: string): (words: seq<string>)
    decreases |s|
  {
    if s == "" then []
    else if IsWhitespace(s[0]) then SplitWhitespace(s[1..])
    else [s[..WordEnd(s)]] + SplitWhitespace(s[WordEnd(s)..])
  }

  lemma {:induction false} SplitWhitespaceInk(s: string)
    ensures Flat(SplitWhitespace(s)) == Ink(s)
    ensures Filled(SplitWhitespace(s))
    decreases |s|
  {
    if s == "" {
    } else if IsWhitespace(s[0]) {
      assert s == [s[0]] + s[1..];
      InkBlank([s[0]]);
      InkConcat([s[0]], s[1..]);
      SplitWhitespaceInk(s[1..]);
    } else {
      var i := WordEnd(s);
      assert s == s[..i] + s[i..];
      InkConcat(s[..i], s[i..]);
      InkSolid(s[..i]);
      SplitWhitespaceInk(s[i..]);
    }
  }

  lemma {:induction false} InkSolid(s: string)
    requires forall i :: 0 <= i < |s| ==> !IsWhitespace(s[i])
    ensures Ink(s) == s
  {
    if s != "" {
      InkSolid(s[..|s| - 1]);
    }
  }

  lemma {:induction false} InkIdempotent(s: string)
    ensures Ink(Ink(s)) == Ink(s)
  {
    if s != "" {
      InkIdempotent(s[..|s| - 1]);
      InkConcat(Ink(s[..|s| - 1]), if IsWhitespace(s[|s| - 1]) then "" else [s[|s| - 1]]);
      if !IsWhitespace(s[|s| - 1]) {
        InkSolid([s[|s| - 1]]);
      }
    }
  }

  // ------------------------------------------------------- words and one line

  predicate Solid(word: string)
  {
    word != "" && forall i :: 0 <= i < |word| ==> !IsWhitespace(word[i])
  }

  predicate AllSolid(words: seq<string>)
  {
    forall i :: 0 <= i < |words| ==> Solid(words[i])
  }

  lemma {:induction false} SplitWhitespaceSolid(s: string)
    ensures AllSolid(SplitWhitespace(s))
    decreases |s|
  {
    if s != "" {
      SplitWhitespaceSolid(if IsWhitespace(s[0]) then s[1..] else s[WordEnd(s)..]);
    }
  }

  /** A text that ends between words. */
  predicate EndsBetween(s: string)
  {
    s == "" || IsWhitespace(s[|s| - 1])
  }

  lemma {:induction false} SplitWhitespaceConcat(a: string, b: string)
    requires EndsBetween(a) || b == "" || IsWhitespace(b[0])
    ensures SplitWhitespace(a + b) == SplitWhitespace(a) + SplitWhitespace(b)
    decreases |a|
  {
    if a == "" {
      assert a + b == b;
    } else if IsWhitespace(a[0]) {
      assert (a + b)[1..] == a[1..] + b;
      SplitWhitespaceConcat(a[1..], b);
    } else {
      var i := WordEnd(a);
      SplitWhitespaceConcat(a[i..], b);
      FirstWordOfConcat(a, b, i);
    }
  }

  lemma FirstWordOfConcat(a: string, b: string, i: nat)
    requires a != "" && !IsWhitespace(a[0]) && i == WordEnd(a)
    requires EndsBetween(a) || b == "" || IsWhitespace(b[0])
    ensures SplitWhitespace(a + b) == [a[..i]] + SplitWhitespace(a[i..] + b)
  {
    hide SplitWhitespace;
    hide IsWhitespace;
    WordEndConcat(a, b);
    SplitFirstWord(a + b);
    assert (a + b)[..i] == a[..i] && (a + b)[i..] == a[i..] + b;
  }

  lemma WordEndConcat(a: string, b: string)
    requires EndsBetween(a) || b == "" || IsWhitespace(b[0])
    requires a != ""
    ensures WordEnd(a + b) == WordEnd(a)
  {
    hide IsWhitespace;
    WordEndUnique(a + b, WordEnd(a));
  }

  lemma SplitFirstWord(s: string)
    requires s != "" && !IsWhitespace(s[0])
    ensures SplitWhitespace(s) == [s[..WordEnd(s)]] + SplitWhitespace(s[WordEnd(s)..])
  {
    hide IsWhitespace;
  }

  lemma WordEndUnique(s: string, i: nat)
    requires i <= |s| && (forall j :: 0 <= j < i ==> !IsWhitespace(s[j])) && (i < |s| ==> IsWhitespace(s[i]))
    ensures WordEnd(s) == i
  {
  }

  lemma {:induction false} SplitWhitespaceBlank(s: string)
    requires Blank(s)
    ensures SplitWhitespace(s) == []
  {
    if s != "" {
      SplitWhitespaceBlank(s[1..]);
    }
  }

  lemma SplitWhitespaceWord(word: string)
    requires Solid(word)
    ensures SplitWhitespace(word) == [word]
  {
    WordEndUnique(word, |word|);
    assert word[..|word|] == word && word[|word|..] == "";
  }

  /** White space at the end holds no word. */
  lemma SplitWhitespaceTrimEnd(s: string)
    ensures SplitWhitespace(TrimEnd(s)) == SplitWhitespace(s)
  {
    var b := TrimEndSplit(s);
    SplitWhitespaceBlank(b);
    SplitWhitespaceConcat(TrimEnd(s), b);
  }

  /** Words joined by a space split into the same words. */
  lemma {:induction false} SplitWhitespaceJoin(words: seq<string>)
    requires AllSolid(words)
    ensures SplitWhitespace(Join(words, " ")) == words
  {
    if |words| == 1 {
      SplitWhitespaceWord(words[0]);
    } else if words != [] {
      SplitWhitespaceJoin(words[1..]);
      SplitWhitespaceWord(words[0]);
      SplitWhitespaceBlank(" ");
      SplitWhitespaceConcat(words[0], " ");
      SplitWhitespaceConcat(words[0] + " ", Join(words[1..], " "));
    }
  }

  /** The words of the lines, in order. */
  function WordsOf(lines: seq<string>): seq<string>
  {
    if lines == [] then [] else WordsOf(lines[..|lines| - 1]) + SplitWhitespace(lines[|lines| - 1])
  }

  lemma WordsOfAppend(lines: seq<string>, line: string)
    ensures WordsOf(lines + [line]) == WordsOf(lines) + SplitWhitespace(line)
  {
    assert (lines + [line])[..|lines|] == lines;
  }

  /** The words of a line are those of its lead and those placed on it. */
  lemma LineWords(lead: string, group: seq<string>)
    requires EndsBetween(lead) && AllSolid(group)
    ensures SplitWhitespace(TrimEnd(lead + Join(group, " "))) == SplitWhitespace(lead) + group
  {
    SplitWhitespaceTrimEnd(lead + Join(group, " "));
    SplitWhitespaceConcat(lead, Join(group, " "));
    SplitWhitespaceJoin(group);
  }

  lemma {:induction false} GreedyWords(w: nat, first: string, cont: string, groups: seq<seq<string>>, lines: seq<string>)
    requires Placed(w, first, cont, " ", groups, lines) && AllSolid(Concat(groups))
    requires EndsBetween(first) && Blank(cont)
    ensures WordsOf(lines) == (if groups == [] then [] else SplitWhitespace(first)) + Concat(groups)
  {
    hide Placed;
    hide SplitWhitespace;
    hide AllSolid;
    hide TrimEnd;
    hide Join;
    hide EndsBetween;
    hide Blank;
    if groups != [] {
      var m := |groups| - 1;
      PlacedLess(w, first, cont, groups, lines);
      AllSolidParts(Concat(groups[..m]), groups[m]);
      GreedyWords(w, first, cont, groups[..m], lines[..m]);
      LeadWords(first, cont, m, groups[m]);
      WordsOfAppend(lines[..m], lines[m]);
      assert lines == lines[..m] + [lines[m]];
    } else {
      PlacedNone(w, first, cont, lines);
    }
  }

  lemma PlacedNone(w: nat, first: string, cont: string, lines: seq<string>)
    requires Placed(w, first, cont, " ", [], lines)
    ensures WordsOf(lines) == []
  {
  }

  /** Only the first line's lead holds words. */
  lemma LeadWords(first: string, cont: string, i: nat, group: seq<string>)
    requires EndsBetween(first) && Blank(cont) && AllSolid(group)
    ensures SplitWhitespace(TrimEnd(Lead(first, cont, i) + Join(group, " "))) ==
            (if i == 0 then SplitWhitespace(first) else []) + group
  {
    LineWords(Lead(first, cont, i), group);
    SplitWhitespaceBlank(cont);
  }

  lemma AllSolidParts(a: seq<string>, b: seq<string>)
    requires AllSolid(a + b)
    ensures AllSolid(a) && AllSolid(b)
  {
    hide Solid;
    forall i | 0 <= i < |a| ensures Solid(a[i]) {
      assert (a + b)[i] == a[i];
    }
    forall i | 0 <= i < |b| ensures Solid(b[i]) {
      assert (a + b)[|a| + i] == b[i];
    }
  }

  lemma PlacedLess(w: nat, first: string, cont: string, groups: seq<seq<string>>, lines: seq<string>)
    requires Placed(w, first, cont, " ", groups, lines) && groups != []
    ensures var m := |groups| - 1;
      && |lines| == |groups| && Placed(w, first, cont, " ", groups[..m], lines[..m])
      && lines[m] == TrimEnd(Lead(first, cont, m) + Join(groups[m], " "))
  {
    hide ByteLen;
    hide TrimEnd;
    hide Join;
    hide Lead;
    var m := |groups| - 1;
    assert forall i :: 0 <= i < m ==>
      LineText(first, cont, " ", groups[..m], i) == LineText(first, cont, " ", groups, i);
    assert lines[m] == TrimEnd(LineText(first, cont, " ", groups, m));
  }

  /** Splitting a greedy layout at white space gives the words of the prefix and then those of the text. */
  lemma WrappedWords(w: nat, prefix: string, cont: string, words: seq<string>, lines: seq<string>)
    requires WrappedGreedily(w, prefix, cont, " ", words, lines)
    requires EndsBetween(prefix) && Blank(cont) && AllSolid(words)
    ensures WordsOf(lines) == SplitWhitespace(prefix) + words
  {
    hide Placed;
    hide Forced;
    hide SplitWhitespace;
    if words == [] {
      SplitWhitespaceTrimEnd(prefix);
      assert lines == [] + [TrimEnd(prefix)];
      WordsOfAppend([], TrimEnd(prefix));
    } else if ByteLen(prefix) < w {
      var groups :| Greedy(w, prefix, cont, " ", words, groups, lines);
      GreedyWords(w, prefix, cont, groups, lines);
    } else {
      var alone := if Blank(prefix) then [] else [TrimEnd(prefix)];
      var groups :| Greedy(w, cont, cont, " ", words, groups, lines[|alone|..]);
      GreedyWords(w, cont, cont, groups, lines[|alone|..]);
      SplitWhitespaceBlank(cont);
      if Blank(prefix) {
        SplitWhitespaceBlank(prefix);
        assert lines[0..] == lines;
      } else {
        SplitWhitespaceTrimEnd(prefix);
        WordsOfCons(TrimEnd(prefix), lines[1..]);
        assert lines == [TrimEnd(prefix)] + lines[1..];
      }
    }
  }

  lemma {:induction false} WordsOfCons(line: string, rest: seq<string>)
    ensures WordsOf([line] + rest) == SplitWhitespace(line) + WordsOf(rest)
  {
    if rest == [] {
      assert [line] + rest == [] + [line];
      WordsOfAppend([], line);
    } else {
      var n := |rest| - 1;
      WordsOfCons(line, rest[..n]);
      assert [line] + rest == ([line] + rest[..n]) + [rest[n]] && rest == rest[..n] + [rest[n]];
      WordsOfAppend([line] + rest[..n], rest[n]);
    }
  }

  /** A line in progress on which all of the rest fits. */
  lemma {:induction false} RestFits(w: nat, cont: string, sep: string, s: Layout, n: nat)
    requires Filled(s.rest) && Iterate(w, cont, sep, s, n).rest == []
    requires s.rest != [] ==>
      ByteLen(s.current) + ByteLen(if s.hasContent then Extended(sep, s.rest) else Join(s.rest, sep)) <= w
    ensures var t := Iterate(w, cont, sep, s, n);
      && t.lines == s.lines && (t.hasContent <==> s.hasContent || s.rest != [])
      && t.current == s.current + if s.hasContent then Extended(sep, s.rest) else Join(s.rest, sep)
    decreases n
  {
    hide Iterate;
    hide Step;
    hide ByteLen;
    hide Join;
    hide Extended;
    IterateUnfolds(w, cont, sep, s, n);
    if s.rest == [] {
      NothingMore(sep, s.current);
    } else {
      StepExtends(w, cont, sep, s);
      RestFits(w, cont, sep, Step(w, cont, sep, s), n - 1);
    }
  }

  lemma NothingMore(sep: string, current: string)
    ensures current + Extended(sep, []) == current + Join([], sep) == current
  {
  }

  /** The next segment is placed; what the line will be is unchanged. */
  lemma StepExtends(w: nat, cont: string, sep: string, s: Layout)
    requires s.rest != [] && Filled(s.rest)
    requires ByteLen(s.current) + ByteLen(if s.hasContent then Extended(sep, s.rest) else Join(s.rest, sep)) <= w
    ensures var t := Step(w, cont, sep, s);
      && t.lines == s.lines && t.hasContent && t.rest == s.rest[1..]
      && ByteLen(t.current) + ByteLen(Extended(sep, t.rest)) <= w
      && t.current + Extended(sep, t.rest) == s.current + if s.hasContent then Extended(sep, s.rest) else Join(s.rest, sep)
  {
    hide ByteLen;
    hide Join;
    hide Extended;
    var x, rest := s.rest[0], s.rest[1..];
    ExtendedCons(sep, s.rest);
    ByteLenPositive(x);
    ExtendedText(sep, s.rest);
    assert ByteLen("") == 0 by { ByteLenPositive(""); }
    StepFits(w, cont, sep, s);
    assert s.current + (sep + x + Extended(sep, rest)) == s.current + sep + x + Extended(sep, rest);
    assert s.current + (x + Extended(sep, rest)) == s.current + "" + x + Extended(sep, rest);
  }

  lemma ExtendedText(sep: string, rest: seq<string>)
    requires rest != []
    ensures Join(rest, sep) == rest[0] + Extended(sep, rest[1..])
    ensures Extended(sep, rest) == sep + rest[0] + Extended(sep, rest[1..])
  {
    JoinFirst(sep, rest);
    hide Join;
    assert sep + (rest[0] + Extended(sep, rest[1..])) == sep + rest[0] + Extended(sep, rest[1..]);
  }

  lemma JoinFirst(sep: string, rest: seq<string>)
    requires rest != []
    ensures Join(rest, sep) == rest[0] + Extended(sep, rest[1..])
  {
    var more := rest[1..];
    if |rest| > 1 {
      assert rest[0] + sep + Join(more, sep) == rest[0] + (sep + Join(more, sep));
    } else {
      assert more == [];
    }
  }

  /** What fits on one line with its prefix is one line. */
  lemma OutcomeIsOneLine(prefix: string, cont: string, segments: seq<string>, sep: string, width: nat,
                         n: nat, lines: seq<string>)
    requires IsOutcome(prefix, cont, segments, sep, width, n, lines) && Filled(segments)
    requires ByteLen(prefix) + ByteLen(Join(segments, sep)) <= EffectiveWidth(prefix, cont, width)
    ensures lines == [TrimEnd(prefix + Join(segments, sep))]
  {
    FilledIsNonEmpty(segments);
    RestFits(EffectiveWidth(prefix, cont, width), cont, sep, Start(prefix, segments), n);
  }

  /** Wrapping white-space split text keeps all of its ink, and every line within
      the effective width plus the overshoot of a four-byte character. */
  method RenderWrappedTextLineWithContinuation(prefix: string, cont: string, value: string, width: nat)
      returns (lines: seq<string>)
    requires Returns(prefix, cont, SplitWhitespace(value), " ", width)
    ensures Blank(cont) ==> Ink(Flat(lines)) == Ink(prefix) + Ink(value)
    ensures var w := EffectiveWidth(prefix, cont, width); LinesWithin(lines, w + Overshoot(w, prefix, cont, 4))
    ensures NoWider(value, 1) ==> LinesWithin(lines, EffectiveWidth(prefix, cont, width))
    ensures ByteLen(prefix) + ByteLen(Join(SplitWhitespace(value), " ")) <= EffectiveWidth(prefix, cont, width) ==>
      lines == [TrimEnd(prefix + Join(SplitWhitespace(value), " "))]
    ensures NoneTooWide(EffectiveWidth(prefix, cont, width), prefix, cont, SplitWhitespace(value)) ==>
      WrappedGreedily(EffectiveWidth(prefix, cont, width), prefix, cont, " ", SplitWhitespace(value), lines)
    ensures Blank(cont) && EndsBetween(prefix) ==>
      NoneTooWide(EffectiveWidth(prefix, cont, width), prefix, cont, SplitWhitespace(value)) ==>
      WordsOf(lines) == SplitWhitespace(prefix) + SplitWhitespace(value)
  {
    var words := SplitWhitespace(value);
    lines := RenderWrappedSegments(prefix, cont, words, " ", width);
    ghost var n: nat :| IsOutcome(prefix, cont, words, " ", width, n, lines);
    TextOutcome(prefix, cont, value, width, n, lines);
    OutcomeWithinWidth(prefix, cont, words, " ", width, n, lines, 4);
    if NoWider(value, 1) {
      WordsNoWider(value, 1);
      OutcomeWithinWidth(prefix, cont, words, " ", width, n, lines, 1);
    }
    if Blank(cont) {
      OutcomeKeepsInk(prefix, cont, words, " ", width, n, lines);
      SplitWhitespaceInk(value);
      InkIdempotent(value);
    }
  }

  lemma TextOutcome(prefix: string, cont: string, value: string, width: nat, n: nat, lines: seq<string>)
    requires IsOutcome(prefix, cont, SplitWhitespace(value), " ", width, n, lines)
    ensures var w, words := EffectiveWidth(prefix, cont, width), SplitWhitespace(value);
      && (ByteLen(prefix) + ByteLen(Join(words, " ")) <= w ==> lines == [TrimEnd(prefix + Join(words, " "))])
      && (NoneTooWide(w, prefix, cont, words) ==> WrappedGreedily(w, prefix, cont, " ", words, lines))
      && (NoneTooWide(w, prefix, cont, words) && Blank(cont) && EndsBetween(prefix) ==>
            WordsOf(lines) == SplitWhitespace(prefix) + words)
  {
    hide IsOutcome;
    hide EffectiveWidth;
    hide NoneTooWide;
    hide WrappedGreedily;
    hide SplitWhitespace;
    hide TrimEnd;
    hide ByteLen;
    var w, words := EffectiveWidth(prefix, cont, width), SplitWhitespace(value);
    SplitWhitespaceSolid(value);
    if ByteLen(prefix) + ByteLen(Join(words, " ")) <= w {
      OutcomeIsOneLine(prefix, cont, words, " ", width, n, lines);
    }
    if NoneTooWide(w, prefix, cont, words) {
      OutcomeIsGreedy(prefix, cont, words, " ", width, n, lines);
      if Blank(cont) && EndsBetween(prefix) {
        WrappedWords(w, prefix, cont, words, lines);
      }
    }
  }

  lemma {:induction false} WordsNoWider(s: string, m: nat)
    requires NoWider(s, m)
    ensures AllNoWider(SplitWhitespace(s), m)
    decreases |s|
  {
    if s != "" {
      WordsNoWider(if IsWhitespace(s[0]) then s[1..] else s[WordEnd(s)..], m);
    }
  }
}
