/** The text and blit routines of the graphics layer, step by step as the
    code runs them, with the SDL calls dropped: each returns the glyph copies
    (or the blit plan) it would hand to the renderer, and is proved to
    compute the corresponding function of `GfxSpec`. */
module Gfx {
  import opened Wrappers
  import opened GfxSpec

  /** `InternalTextLine`: shift the anchor by the alignment, then copy one
      glyph per character, moving right one glyph width each time. */
  method TextLine(text: seq<CChar>, p: Point, h: int, v: int) returns (r: Result<seq<Glyph>, Fault>)
    ensures r == TextLineGlyphs(text, p, h, v)
  {
    var origin := p;
    var boxW := |text| * 8;
    if h == HLeft {
    } else if h == HCenter {
      origin := origin.(x := origin.x - boxW / 2);
    } else if h == HRight {
      origin := origin.(x := origin.x - boxW);
    } else {
      return Failure(InvalidHAlign);
    }
    if v == VTop {
    } else if v == VCenter {
      origin := origin.(y := origin.y - 4);
    } else if v == VBottom {
      origin := origin.(y := origin.y - 8);
    } else {
      return Failure(InvalidVAlign);
    }
    assert LineOrigin(|text|, p, h, v) == Success(origin);
    var drawn := DrawRow(text, 0, |text|, origin.x as real, origin.y as real);
    return Success(drawn);
  }

  /** `InternalTextParagraph` as written: normalise the corners, give up on a
      box smaller than a glyph, place the block of whole rows vertically,
      then break and draw line after line. */
  method TextParagraph(text: seq<CChar>, a: Point, b: Point, h: int, v: int) returns (r: Result<seq<Glyph>, Fault>)
    ensures r == ParagraphAsWritten(text, a, b, h, v)
  {
    var lo, hi := a, b;
    if lo.x > hi.x {
      lo, hi := lo.(x := hi.y), hi.(y := lo.x);
    }
    if lo.y > hi.y {
      lo, hi := lo.(y := hi.y), hi.(y := lo.y);
    }
    assert (lo, hi) == SwapQuirk(a, b);
    var boxW, boxH := hi.x - lo.x + 1, hi.y - lo.y + 1;
    if boxW < 8 || boxH < 8 {
      return Success([]);
    }
    // The vertical switch: its default case reports the bad code.
    if !(0 <= v <= 2) {
      return Failure(InvalidVAlign);
    }
    var y := Place(lo.y, boxH, LinesHeight(boxH), v);
    ParagraphLines(text, a, b, h, v);
    r := DrawLines(text, lo.x, boxW, y, v);
  }

  /** The line loop of `InternalTextParagraph` (gfx.cc:428-471): draw the
      line at `cursor` and continue after its break one glyph row lower,
      until the text is used up. */
  method DrawLines(text: seq<CChar>, ax: int, boxW: int, y0: real, v: int) returns (r: Result<seq<Glyph>, Fault>)
    requires 0 <= boxW && 0 <= v <= 2
    ensures r == LinesAsWritten(text, 0, ax, boxW, y0, v)
  {
    ghost var whole := LinesAsWritten(text, 0, ax, boxW, y0, v);
    var drawn: seq<Glyph> := [];
    var cursor := 0;
    var y := y0;
    assert whole == Prepend(drawn, LinesAsWritten(text, cursor, ax, boxW, y, v)) by {
      if whole.Success? {
        assert [] + whole.value == whole.value;
      }
    }
    while cursor < |text|
      invariant 0 <= cursor <= |text|
      invariant whole == Prepend(drawn, LinesAsWritten(text, cursor, ax, boxW, y, v))
      decreases |text| - cursor
    {
      var line := DrawLine(text, cursor, ax, boxW, y, v);
      if line.Failure? {
        LinesFail(text, cursor, ax, boxW, y, v);
        return Failure(line.error);
      }
      var row, next := line.value.0, line.value.1;
      LinesAdvance(text, cursor, ax, boxW, y, v, drawn, BreakAsWritten(text, cursor, boxW).value, row);
      drawn := drawn + row;
      cursor := next;
      y := y + 8.0;
    }
    assert drawn + [] == drawn;
    return Success(drawn);
  }

  /** One pass of the line loop (gfx.cc:429-469): break the line at
      `cursor`, place it by `v`, draw it, and return its glyphs with the
      cursor of the next line. */
  method DrawLine(text: seq<CChar>, cursor: int, ax: int, boxW: int, y: real, v: int)
    returns (r: Result<(seq<Glyph>, int), Fault>)
    requires 0 <= cursor < |text| && 0 <= boxW && 0 <= v <= 2
    ensures r.Failure? ==> BreakAsWritten(text, cursor, boxW) == Failure(r.error)
    ensures r.Success? ==> BreakAsWritten(text, cursor, boxW).Success?
    ensures r.Success? ==>
      var br := BreakAsWritten(text, cursor, boxW).value;
      r.value == (Row(text, cursor, br.term, Place(ax, boxW, (br.term - cursor) * 8, v), y), br.term + br.skip)
  {
    var br := BreakLine(text, cursor, boxW);
    if br.Failure? {
      return Failure(br.error);
    }
    var lineTerm, spaceSkip := br.value.term, br.value.skip;
    var lineWidth := (lineTerm - cursor) * 8;
    // The placement switch reads `v_align` (checked by the caller), so one
    // of its three cases applies.
    var x := Place(ax, boxW, lineWidth, v);
    var row := DrawRow(text, cursor, lineTerm, x, y);
    return Success((row, lineTerm + spaceSkip));
  }

  /** The scan and break decision of one paragraph line (gfx.cc:430-442):
      remember the last space while the offset from `cursor` fits the box,
      then fall back to the whole window when there was none. */
  method BreakLine(text: seq<CChar>, cursor: int, boxW: int) returns (r: Result<Break, Fault>)
    requires 0 <= cursor < |text| && 0 <= boxW
    ensures r == BreakAsWritten(text, cursor, boxW)
  {
    var spaceSkip := 1;
    var lineTerm := cursor;
    var lineS := cursor;
    while lineS < |text| && (lineS - cursor) * 8 <= boxW
      invariant cursor <= lineS <= ScanEnd(|text|, cursor, boxW)
      invariant lineTerm == LastSpace(text, cursor, lineS)
      decreases |text| - lineS
    {
      if text[lineS] == Space {
        lineTerm := lineS;
      }
      lineS := lineS + 1;
    }
    if lineTerm == cursor {
      lineTerm := lineS;
      if lineS == |text| {
        // the code reads `text[line_s]` one past the end here
        return Failure(ReadPastEnd);
      }
      if text[lineS] != Space {
        spaceSkip := 0;
      }
    }
    return Success(Break(lineTerm, spaceSkip));
  }

  /** The glyph loop of one line (gfx.cc:459-467 and 366-373): one copy per
      character of `text[lo..hi]`, moving right one glyph width each time. */
  method DrawRow(text: seq<CChar>, lo: int, hi: int, x0: real, y: real) returns (drawn: seq<Glyph>)
    requires 0 <= lo <= hi <= |text|
    ensures drawn == Row(text, lo, hi, x0, y)
  {
    drawn := [];
    var x := x0;
    for i := lo to hi
      invariant drawn == Row(text, lo, i, x0, y)
      invariant x == x0 + ((i - lo) * 8) as real
    {
      drawn := drawn + [Glyph(GlyphCell(text[i]), x, y)];
      x := x + 8.0;
    }
  }

  /** `InternalPut`'s rectangle handling: look up the blend constant, place
      the destination at `p`, then either use the whole source or the
      rectangle between the corners after the two swaps. */
  method Put(dims: Point, p: Point, blend: int, a: Point, b: Point) returns (r: Result<PutPlan, Fault>)
    ensures r == PutAsWritten(dims, p, blend, a, b)
  {
    var mode := SdlBlendMode(blend);
    if mode.Failure? {
      return Failure(mode.error);
    }
    var dst := Rect(p.x, p.y, 0, 0);
    var srcA, srcB := a, b;
    if srcA.x == -1 || srcA.y == -1 || srcB.x == -1 || srcB.y == -1 {
      dst := dst.(w := dims.x, h := dims.y);
      return Success(PutPlan(mode.value, None, dst));
    }
    if srcA.x > srcB.x {
      srcA, srcB := srcA.(x := srcB.y), srcB.(y := srcA.x);
    }
    if srcA.y > srcB.y {
      srcA, srcB := srcA.(y := srcB.y), srcB.(y := srcA.y);
    }
    var src := Rect(srcA.x, srcA.y, srcB.x - srcA.x + 1, srcB.y - srcA.y + 1);
    dst := dst.(w := src.w, h := src.h);
    return Success(PutPlan(mode.value, Some(src), dst));
  }
}
