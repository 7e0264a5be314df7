/**
 * Every body that RFC 2046 section 5.1.1 allows: the line break before the first boundary, the
 * transport padding after a boundary, and the line break after the last boundary are optional.
 * The example splits exactly the bodies that have the breaks and no padding.
 */
module MultipartLayout {
  import opened Wrappers
  import opened Text
  import opened FormData

  /** A part after its boundary line, which may be padded. */
  datatype Encapsulated = Encapsulated(padding: string, part: string)

  /** `preamble` and `epilogue` are absent together with the line break next to the boundary. */
  datatype Layout = Layout(
    preamble: Option<string>,
    bodies: seq<Encapsulated>,
    closePadding: string,
    epilogue: Option<string>)

  /** The boundary after the last part, and what follows. */
  function Closing(boundary: string, closePadding: string, epilogue: Option<string>): string {
    Prefix(boundary) + ("--" + closePadding + if epilogue.None? then "" else "\r\n" + epilogue.value)
  }

  /** The body from the line break before a boundary on. */
  function FromBreak(boundary: string, bodies: seq<Encapsulated>, closePadding: string,
                     epilogue: Option<string>): (text: string)
    ensures Prefix(boundary) <= text
  {
    if bodies == [] then Closing(boundary, closePadding, epilogue)
    else
      Prefix(boundary) +
      (bodies[0].padding + "\r\n" + bodies[0].part
       + FromBreak(boundary, bodies[1..], closePadding, epilogue))
  }

  /** The body as RFC 2046 writes it. */
  function Written(boundary: string, l: Layout): string {
    var text := FromBreak(boundary, l.bodies, l.closePadding, l.epilogue);
    match l.preamble
    case Some(preamble) => preamble + text
    case None => text[2..]
  }

  function PartsOf(bodies: seq<Encapsulated>): (parts: seq<string>)
    ensures |parts| == |bodies| && forall i :: 0 <= i < |bodies| ==> parts[i] == bodies[i].part
  {
    seq(|bodies|, i requires 0 <= i < |bodies| => bodies[i].part)
  }

  predicate IsPadding(s: string) {
    forall i :: 0 <= i < |s| ==> s[i] == ' ' || s[i] == '\t'
  }

  /** No line of the text starts with the boundary, not even the first one. */
  ghost predicate LinesClean(boundary: string, s: string) {
    Clean(boundary, "\r\n" + s)
  }

  ghost predicate BodiesAllowed(boundary: string, bodies: seq<Encapsulated>) {
    forall e :: e in bodies ==> IsPadding(e.padding) && LinesClean(boundary, e.part)
  }

  /**
   * What the RFC asks of a body: at least one part, no line in a part that starts with the
   * boundary. Preamble and epilogue may be any text, and parts may be empty.
   */
  ghost predicate IsAllowed(boundary: string, l: Layout) {
    && '\r' !in boundary
    && l.bodies != [] && BodiesAllowed(boundary, l.bodies) && IsPadding(l.closePadding)
  }

  predicate Unpadded(bodies: seq<Encapsulated>) {
    forall i :: 0 <= i < |bodies| ==> bodies[i].padding == ""
  }

  predicate IsClosed(closePadding: string, epilogue: Option<string>) {
    closePadding == "" && epilogue.Some?
  }

  /** All line breaks are there, and no padding. */
  predicate IsStrict(l: Layout) {
    l.preamble.Some? && Unpadded(l.bodies) && IsClosed(l.closePadding, l.epilogue)
  }

  function IfAny(s: Option<string>): seq<string> {
    if s.GetOr("") == "" then [] else [s.value]
  }

  function Split(boundary: string, text: string): seq<string> {
    NonEmpty(Pieces(Delimiter(boundary), text, 0))
  }

  // ----- A boundary that is not recognised stays in a piece -----

  lemma {:induction false} NonEmptyHas(pieces: seq<string>, s: string)
    ensures s in NonEmpty(pieces) <==> s in pieces && s != ""
  {
    if pieces != [] {
      NonEmptyHas(pieces[1..], s);
      assert pieces == [pieces[0]] + pieces[1..];
    }
  }

  /** No marker starts at `x` or covers it. */
  ghost predicate NoMarkerOver(d: FormDataDelimiter, text: string, x: nat) {
    && (forall y: nat {:trigger OccursAt(text, d.partMarker, y)} ::
          OccursAt(text, d.partMarker, y) && y <= x ==> y + |d.partMarker| <= x)
    && (forall y: nat {:trigger OccursAt(text, d.bodyMarker, y)} ::
          OccursAt(text, d.bodyMarker, y) && y <= x ==> y + |d.bodyMarker| <= x)
  }

  lemma OccursFirst(text: string, marker: string, y: nat)
    requires OccursAt(text, marker, y) && marker != ""
    ensures y < |text| && text[y] == marker[0]
  {
    assert text[y + 0] == marker[0];
  }

  /** A marker does not start inside the boundary, since only its first character is a CR. */
  lemma NoMarkerInside(boundary: string, text: string, marker: string, x: nat, y: nat)
    requires '\r' !in boundary && OccursAt(text, Prefix(boundary), x)
    requires marker != "" && marker[0] == '\r'
    requires x < y < x + |Prefix(boundary)|
    ensures !OccursAt(text, marker, y)
  {
    assert text[x + (y - x)] == Prefix(boundary)[y - x];
    assert y - x >= 4 ==> Prefix(boundary)[y - x] == boundary[y - x - 4];
    assert text[y] != '\r';
    if OccursAt(text, marker, y) {
      OccursFirst(text, marker, y);
    }
  }

  lemma OccursInPiece(text: string, marker: string, from: nat, to: nat, x: nat)
    requires OccursAt(text, marker, x) && from <= x && x + |marker| <= to <= |text|
    ensures Contains(text[from..to], marker)
  {
    assert OccursAt(text[from..to], marker, x - from);
  }

  /** Where the next delimiter is, seen from a boundary that is not recognised. */
  lemma FoundBesides(boundary: string, text: string, pos: nat, x: nat)
    requires '\r' !in boundary && pos <= x <= |text| && OccursAt(text, Prefix(boundary), x)
    requires NoMarkerOver(Delimiter(boundary), text, x)
    ensures var f := FindDelimiter(Delimiter(boundary), text, pos);
            || x + |Prefix(boundary)| <= f.start
            || (f.start < |text| && f.length > 0 && f.start + f.length <= x)
  {
    var d := Delimiter(boundary);
    var f := FindDelimiter(d, text, pos);
    AboutFound(d, text, pos);
    PiecesStep(d, text, pos);
    MarkersStartWithPrefix(boundary);
    if x < f.start < x + |Prefix(boundary)| {
      NoMarkerInside(boundary, text, d.partMarker, x, f.start);
      NoMarkerInside(boundary, text, d.bodyMarker, x, f.start);
    }
  }

  lemma {:induction false} UnrecognisedStays(boundary: string, text: string, pos: nat, x: nat)
    returns (piece: string)
    requires '\r' !in boundary && pos <= x <= |text| && OccursAt(text, Prefix(boundary), x)
    requires NoMarkerOver(Delimiter(boundary), text, x)
    ensures piece in Pieces(Delimiter(boundary), text, pos) && !Clean(boundary, piece)
    decreases |text| - pos
  {
    hide OccursAt, Prefix, Pieces, NonEmpty, FindDelimiter, Contains, Delimiter, NoMarkerOver;
    var d := Delimiter(boundary);
    var f := FindDelimiter(d, text, pos);
    PiecesStep(d, text, pos);
    FoundBesides(boundary, text, pos, x);
    if x + |Prefix(boundary)| <= f.start {
      piece := text[pos..f.start];
      OccursInPiece(text, Prefix(boundary), pos, f.start, x);
    } else {
      piece := UnrecognisedStays(boundary, text, f.start + f.length, x);
    }
  }

  // ----- Boundaries that are not recognised -----

  lemma CarriageReturnInPrefix(boundary: string, text: string, y: nat, x: nat)
    requires '\r' !in boundary && OccursAt(text, Prefix(boundary), y)
    requires y < x < y + |Prefix(boundary)|
    ensures text[x] != '\r'
  {
    assert text[y + (x - y)] == Prefix(boundary)[x - y];
    assert x - y >= 4 ==> Prefix(boundary)[x - y] == boundary[x - y - 4];
  }

  /** A text, its middle and its rest: an occurrence within the middle. */
  lemma OccursInMiddle(pre: string, middle: string, rest: string, marker: string, y: nat)
    requires OccursAt(pre + middle + rest, marker, y)
    requires |pre| <= y && y + |marker| <= |pre| + |middle|
    ensures Contains(middle, marker)
  {
    var text := pre + middle + rest;
    assert text[|pre|..|pre| + |middle|] == middle;
    OccursInPiece(text, marker, |pre|, |pre| + |middle|, y);
  }

  /** A marker before the boundary at the end of `pre + middle` does not reach into it. */
  lemma NoMarkerReaches(boundary: string, pre: string, middle: string, rest: string, tail: string,
                        y: nat)
    requires '\r' !in boundary && Clean(boundary, middle)
    requires pre != "" ==> |middle| >= 2 && middle[0] == '\r'
    requires rest != "" && rest[0] == '\r'
    requires tail == "\r\n" || tail == "--\r\n"
    requires y < |pre + middle| && OccursAt(pre + middle + rest, Prefix(boundary) + tail, y)
    ensures y + |Prefix(boundary) + tail| <= |pre + middle|
  {
    var text, x, prefix := pre + middle + rest, |pre + middle|, Prefix(boundary);
    var marker := prefix + tail;
    PrefixOccurs(text, boundary, marker, y);
    assert text[x] == '\r';
    if x < y + |prefix| {
      CarriageReturnInPrefix(boundary, text, y, x);
    } else if x < y + |marker| {
      assert text[y + (x - y)] == marker[x - y];
      assert tail[x - y - |prefix|] == '\r';
      assert text[y + |prefix|] == marker[|prefix|];
      if |pre| <= y {
        OccursInMiddle(pre, middle, rest, prefix, y);
      } else {
        assert text[|pre|] == '\r';
        if |pre| < y + |prefix| {
          CarriageReturnInPrefix(boundary, text, y, |pre|);
        }
      }
    }
  }

  lemma OccursAtStart(text: string, marker: string)
    ensures OccursAt(text, marker, 0) <==> marker <= text
  {
    if OccursAt(text, marker, 0) {
      assert text[..|marker|] == marker;
    }
  }

  /** No marker starts at the boundary or reaches into it. */
  lemma NotOver(boundary: string, pre: string, middle: string, rest: string, tail: string, y: nat)
    requires '\r' !in boundary && Clean(boundary, middle)
    requires pre != "" ==> |middle| >= 2 && middle[0] == '\r'
    requires rest != "" && rest[0] == '\r' && !(Prefix(boundary) + tail <= rest)
    requires tail == "\r\n" || tail == "--\r\n"
    requires y <= |pre + middle| && OccursAt(pre + middle + rest, Prefix(boundary) + tail, y)
    ensures y + |Prefix(boundary) + tail| <= |pre + middle|
  {
    hide OccursAt, Prefix, Clean;
    OccursShift(pre + middle, rest, Prefix(boundary) + tail, 0);
    OccursAtStart(rest, Prefix(boundary) + tail);
    assert y != |pre + middle|;
    NoMarkerReaches(boundary, pre, middle, rest, tail, y);
  }

  lemma NoMarkerOverBoundary(boundary: string, pre: string, middle: string, rest: string)
    requires '\r' !in boundary && Clean(boundary, middle)
    requires pre != "" ==> |middle| >= 2 && middle[0] == '\r'
    requires rest != "" && rest[0] == '\r'
    requires !(Delimiter(boundary).partMarker <= rest) && !(Delimiter(boundary).bodyMarker <= rest)
    ensures NoMarkerOver(Delimiter(boundary), pre + middle + rest, |pre + middle|)
  {
    MarkersStartWithPrefix(boundary);
    hide OccursAt, Prefix, Clean, Delimiter;
    var d, text := Delimiter(boundary), pre + middle + rest;
    forall y: nat | OccursAt(text, d.partMarker, y) && y <= |pre + middle|
      ensures y + |d.partMarker| <= |pre + middle|
    {
      NotOver(boundary, pre, middle, rest, "\r\n", y);
    }
    forall y: nat | OccursAt(text, d.bodyMarker, y) && y <= |pre + middle|
      ensures y + |d.bodyMarker| <= |pre + middle|
    {
      NotOver(boundary, pre, middle, rest, "--\r\n", y);
    }
  }

  /** A boundary that starts no marker stays in a piece. */
  lemma BadBoundaryStays(boundary: string, pre: string, middle: string, rest: string)
    returns (piece: string)
    requires '\r' !in boundary && Clean(boundary, middle)
    requires pre != "" ==> |middle| >= 2 && middle[0] == '\r'
    requires Prefix(boundary) <= rest
    requires !(Delimiter(boundary).partMarker <= rest) && !(Delimiter(boundary).bodyMarker <= rest)
    ensures piece in Pieces(Delimiter(boundary), pre + middle + rest, 0) && !Clean(boundary, piece)
  {
    assert rest != "" && rest[0] == '\r';
    hide OccursAt, Prefix, Delimiter, Clean, Pieces, NoMarkerOver;
    OccursAtStart(rest, Prefix(boundary));
    OccursShift(pre + middle, rest, Prefix(boundary), 0);
    NoMarkerOverBoundary(boundary, pre, middle, rest);
    piece := UnrecognisedStays(boundary, pre + middle + rest, 0, |pre + middle|);
  }

  // ----- Bodies that are not strict -----

  /** A padded boundary starts no marker. */
  lemma PaddedIsBad(boundary: string, padding: string, more: string)
    requires padding != "" && IsPadding(padding)
    ensures var rest := Prefix(boundary) + (padding + more);
            !(Delimiter(boundary).partMarker <= rest) && !(Delimiter(boundary).bodyMarker <= rest)
  {
    MarkersStartWithPrefix(boundary);
    var n := |Prefix(boundary)|;
    var rest, d := Prefix(boundary) + (padding + more), Delimiter(boundary);
    assert rest[n] == padding[0];
    assert d.partMarker[n] == '\r' && d.bodyMarker[n] == '-';
  }

  /** The last boundary starts no marker unless it is followed by a line break. */
  lemma UnclosedIsBad(boundary: string, closePadding: string, epilogue: Option<string>)
    requires IsPadding(closePadding) && !IsClosed(closePadding, epilogue)
    ensures var rest := Closing(boundary, closePadding, epilogue);
            && Prefix(boundary) <= rest
            && !(Delimiter(boundary).partMarker <= rest) && !(Delimiter(boundary).bodyMarker <= rest)
  {
    MarkersStartWithPrefix(boundary);
    var n := |Prefix(boundary)|;
    var rest, d := Closing(boundary, closePadding, epilogue), Delimiter(boundary);
    assert rest[n] == '-' && d.partMarker[n] == '\r' && d.bodyMarker[n + 2] == '\r';
    if closePadding != "" {
      assert rest[n + 2] == closePadding[0];
    } else {
      assert |rest| == n + 2;
    }
  }

  lemma FirstBodyWritten(boundary: string, bodies: seq<Encapsulated>, closePadding: string,
                         epilogue: Option<string>, done: string)
    requires bodies != [] && bodies[0].padding == ""
    ensures done + FromBreak(boundary, bodies, closePadding, epilogue) ==
            (done + Prefix(boundary)) + ("\r\n" + bodies[0].part)
            + FromBreak(boundary, bodies[1..], closePadding, epilogue)
  {
    hide Prefix;
  }

  /** With padding after a boundary, or no line break after the last, a boundary stays in a piece. */
  lemma {:induction false} BoundaryStays(boundary: string, pre: string, middle: string,
                                         bodies: seq<Encapsulated>, closePadding: string,
                                         epilogue: Option<string>)
    returns (piece: string)
    requires '\r' !in boundary && Clean(boundary, middle)
    requires pre != "" ==> |middle| >= 2 && middle[0] == '\r'
    requires BodiesAllowed(boundary, bodies) && IsPadding(closePadding)
    requires !Unpadded(bodies) || !IsClosed(closePadding, epilogue)
    ensures var text := pre + middle + FromBreak(boundary, bodies, closePadding, epilogue);
            piece in Pieces(Delimiter(boundary), text, 0) && !Clean(boundary, piece)
    decreases |bodies|
  {
    var rest := FromBreak(boundary, bodies, closePadding, epilogue);
    if bodies == [] {
      hide Clean, Pieces, Delimiter, Prefix, Closing, IsPadding, IsClosed;
      UnclosedIsBad(boundary, closePadding, epilogue);
      piece := BadBoundaryStays(boundary, pre, middle, rest);
    } else if bodies[0].padding != "" {
      assert bodies[0] in bodies;
      var more := "\r\n" + bodies[0].part + FromBreak(boundary, bodies[1..], closePadding, epilogue);
      assert rest == Prefix(boundary) + (bodies[0].padding + more);
      hide Clean, Pieces, Delimiter, Prefix, IsPadding, FromBreak;
      PaddedIsBad(boundary, bodies[0].padding, more);
      piece := BadBoundaryStays(boundary, pre, middle, rest);
    } else {
      assert bodies[0] in bodies;
      assert BodiesAllowed(boundary, bodies[1..]) && (Unpadded(bodies[1..]) ==> Unpadded(bodies));
      FirstBodyWritten(boundary, bodies, closePadding, epilogue, pre + middle);
      hide Clean, Pieces, Delimiter, Prefix, FromBreak, BodiesAllowed, Unpadded;
      piece := BoundaryStays(boundary, pre + middle + Prefix(boundary), "\r\n" + bodies[0].part,
                             bodies[1..], closePadding, epilogue);
    }
  }

  /** A text that starts with the boundary, without a line break, keeps it in its first piece. */
  lemma LeadingStays(boundary: string, text: string) returns (piece: string)
    requires '\r' !in boundary && Prefix(boundary) <= "\r\n" + text
    ensures Pieces(Delimiter(boundary), text, 0) != [] && Pieces(Delimiter(boundary), text, 0)[0] == piece
    ensures piece != ""
    ensures !LinesClean(boundary, piece)
  {
    var d, n := Delimiter(boundary), |Prefix(boundary)|;
    var f := FindDelimiter(d, text, 0);
    var whole := "\r\n" + text;
    AboutFound(d, text, 0);
    PiecesStep(d, text, 0);
    MarkersStartWithPrefix(boundary);
    piece := text[0..f.start];
    assert Pieces(d, text, 0)[0] == piece;
    OccursAtStart(whole, Prefix(boundary));
    if f.start + 2 < n {
      OccursShift("\r\n", text, d.partMarker, f.start);
      OccursShift("\r\n", text, d.bodyMarker, f.start);
      NoMarkerInside(boundary, whole, d.partMarker, 0, f.start + 2);
      NoMarkerInside(boundary, whole, d.bodyMarker, 0, f.start + 2);
    }
    assert "\r\n" + piece == whole[0..f.start + 2];
    OccursInPiece(whole, Prefix(boundary), 0, f.start + 2, 0);
  }

  // ----- Exactly which bodies are split -----

  /** The parts, with the preamble and the epilogue where there are any. */
  function Expected(l: Layout): seq<string> {
    IfAny(l.preamble) + PartsOf(l.bodies) + IfAny(l.epilogue)
  }

  lemma LinesCleanIsClean(boundary: string, s: string)
    ensures LinesClean(boundary, s) ==> Clean(boundary, s)
  {
    if i: nat :| OccursAt(s, Prefix(boundary), i) {
      OccursShift("\r\n", s, Prefix(boundary), i);
    }
  }

  lemma {:induction false} StrictFromBreak(boundary: string, bodies: seq<Encapsulated>, epilogue: string)
    requires Unpadded(bodies)
    ensures FromBreak(boundary, bodies, "", Some(epilogue)) == Tail(boundary, PartsOf(bodies), epilogue)
  {
    MarkersStartWithPrefix(boundary);
    var d := Delimiter(boundary);
    if bodies == [] {
      assert "--" + "" + ("\r\n" + epilogue) == "--\r\n" + epilogue;
      hide Prefix, Delimiter;
      assert Closing(boundary, "", Some(epilogue)) == d.bodyMarker + epilogue;
    } else {
      StrictFromBreak(boundary, bodies[1..], epilogue);
      assert PartsOf(bodies)[1..] == PartsOf(bodies[1..]);
      hide Prefix, Delimiter, Closing;
      StrictPart(Prefix(boundary), bodies[0].part, Tail(boundary, PartsOf(bodies[1..]), epilogue));
    }
  }

  lemma StrictPart(prefix: string, part: string, rest: string)
    ensures prefix + ("" + "\r\n" + part + rest) == (prefix + "\r\n") + (part + rest)
  {
  }

  /** A body that is not strict leaves a piece with a line that starts with the boundary. */
  lemma UnstrictShows(boundary: string, l: Layout) returns (piece: string)
    requires IsAllowed(boundary, l) && !IsStrict(l)
    requires l.preamble.Some? ==> LinesClean(boundary, l.preamble.value)
    ensures piece in Split(boundary, Written(boundary, l)) && !LinesClean(boundary, piece)
  {
    hide Clean, Pieces, NonEmpty, Delimiter, Prefix, BodiesAllowed, IsPadding, EpilogueFits;
    var text := FromBreak(boundary, l.bodies, l.closePadding, l.epilogue);
    if l.preamble.None? {
      StartsWithBreak(boundary, text);
      piece := LeadingStays(boundary, text[2..]);
    } else {
      var preamble := l.preamble.value;
      LinesCleanIsClean(boundary, preamble);
      assert "" + preamble + text == preamble + text;
      piece := BoundaryStays(boundary, "", preamble, l.bodies, l.closePadding, l.epilogue);
      LinesCleanIsClean(boundary, piece);
      NothingInLineBreak(boundary);
    }
    NonEmptyHas(Pieces(Delimiter(boundary), Written(boundary, l), 0), piece);
  }

  lemma StartsWithBreak(boundary: string, text: string)
    requires Prefix(boundary) <= text
    ensures |text| > 2 && Prefix(boundary) <= "\r\n" + text[2..]
  {
    assert text[0] == Prefix(boundary)[0] && text[1] == Prefix(boundary)[1];
    assert text == "\r\n" + text[2..];
  }

  // ----- One unclosed part -----

  /** No marker in a clean part and a last boundary without a line break. */
  lemma NoMarkerUnclosed(boundary: string, part: string, tail: string)
    requires '\r' !in boundary && Clean(boundary, part)
    requires tail == "\r\n" || tail == "--\r\n"
    ensures Search(part + (Prefix(boundary) + "--"), Prefix(boundary) + tail, 0).None?
  {
    var rest, marker := Prefix(boundary) + "--", Prefix(boundary) + tail;
    assert "" + part + rest == part + rest && "" + part == part;
    var n := |Prefix(boundary)|;
    assert rest[n] == '-' && |rest| == n + 2 && marker[n] == tail[0];
    var r := Search(part + rest, marker, 0);
    if r.Some? {
      NotOver(boundary, "", part, rest, tail, r.value);
      PrefixOccurs(part + rest, boundary, marker, r.value);
      assert part + rest == "" + part + rest;
      OccursInMiddle("", part, rest, Prefix(boundary), r.value);
    }
  }

  /** A body with one part and no line break after the last boundary: the part keeps that boundary. */
  lemma CloseNeedsLineBreak(boundary: string, part: string)
    requires '\r' !in boundary && part != "" && LinesClean(boundary, part)
    ensures var last := part + (Prefix(boundary) + "--");
            var text := Delimiter(boundary).partMarker + last;
            && text == Written(boundary, Layout(Some(""), [Encapsulated("", part)], "", None))
            && Split(boundary, text) == [last] && [last] != [part]
  {
    var d, last := Delimiter(boundary), part + (Prefix(boundary) + "--");
    var text, n := d.partMarker + last, |d.partMarker|;
    LinesCleanIsClean(boundary, part);
    OneUnclosedPart(boundary, part);
    NoMarkerUnclosed(boundary, part, "\r\n");
    NoMarkerUnclosed(boundary, part, "--\r\n");
    MarkersStartWithPrefix(boundary);
    hide OccursAt, Pieces, NonEmpty, Clean, Written, Prefix, Delimiter;
    SearchRest(d.partMarker, last, d.partMarker);
    SearchRest(d.partMarker, last, d.bodyMarker);
    PiecesStep(d, text, n);
    assert text[n..|text|] == last;
    OccursAtStart(text, d.partMarker);
    PiecesStep(d, text, 0);
    assert |last| > |part|;
  }

  lemma OneUnclosedPart(boundary: string, part: string)
    ensures Written(boundary, Layout(Some(""), [Encapsulated("", part)], "", None)) ==
            Delimiter(boundary).partMarker + (part + (Prefix(boundary) + "--"))
  {
    MarkersStartWithPrefix(boundary);
    hide Prefix, Delimiter;
    var bodies := [Encapsulated("", part)];
    assert bodies[1..] == [];
    StrictPart(Prefix(boundary), part, Prefix(boundary) + "--");
    assert Closing(boundary, "", None) == Prefix(boundary) + "--";
    assert FromBreak(boundary, bodies, "", None) ==
           Prefix(boundary) + ("" + "\r\n" + part + (Prefix(boundary) + "--"));
  }
}
