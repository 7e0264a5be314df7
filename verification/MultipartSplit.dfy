/**
 * Exactly which bodies of RFC 2046 section 5.1.1 the example splits into what was written: parts
 * that are not empty, line breaks around all boundaries, no padding, and no marker in the preamble
 * or the epilogue that the search would take first.
 */
module MultipartSplit {
  import opened Wrappers
  import opened Text
  import opened FormData
  import opened MultipartLayout

  // ----- Splitting what is left is splitting afresh -----

  lemma FindRest(d: FormDataDelimiter, done: string, rest: string)
    ensures FindDelimiter(d, done + rest, |done|) ==
            var f := FindDelimiter(d, rest, 0); Found(|done| + f.start, f.length)
  {
    SearchRest(done, rest, d.partMarker);
    SearchRest(done, rest, d.bodyMarker);
  }

  lemma {:induction false} PiecesOfRest(d: FormDataDelimiter, done: string, rest: string)
    requires Usable(d)
    ensures Pieces(d, done + rest, |done|) == Pieces(d, rest, 0)
    decreases |rest|
  {
    hide FindDelimiter, Pieces, NonEmpty;
    var text, f := done + rest, FindDelimiter(d, rest, 0);
    FindRest(d, done, rest);
    PiecesStep(d, text, |done|);
    PiecesStep(d, rest, 0);
    assert text[|done|..|done| + f.start] == rest[0..f.start];
    if f.start < |rest| {
      var n := f.start + f.length;
      assert text == (done + rest[..n]) + rest[n..] && rest == rest[..n] + rest[n..];
      PiecesOfRest(d, done + rest[..n], rest[n..]);
      PiecesOfRest(d, rest[..n], rest[n..]);
    }
  }

  /** The pieces of a text: the one before the first delimiter, and those of what follows it. */
  lemma SplitStep(boundary: string, text: string)
    ensures var f := FindDelimiter(Delimiter(boundary), text, 0);
            var piece := text[..f.start];
            && (f.start < |text| ==> f.length > 0)
            && Split(boundary, text) ==
               (if piece == "" then [] else [piece]) +
               (if f.start == |text| then [] else Split(boundary, text[f.start + f.length..]))
  {
    hide FindDelimiter, Pieces, NonEmpty, Delimiter;
    var d := Delimiter(boundary);
    var f := FindDelimiter(d, text, 0);
    PiecesStep(d, text, 0);
    assert text[0..f.start] == text[..f.start];
    if f.start < |text| {
      var n := f.start + f.length;
      assert text == text[..n] + text[n..];
      PiecesOfRest(d, text[..n], text[n..]);
    }
  }

  // ----- What must hold if the result is what was written -----

  /** The first of the pieces that is not empty is as long as the text before a marker. */
  lemma FirstSplit(boundary: string, text: string)
    requires FindDelimiter(Delimiter(boundary), text, 0).start > 0
    ensures var f := FindDelimiter(Delimiter(boundary), text, 0);
            && Split(boundary, text) != [] && Split(boundary, text)[0] == text[..f.start]
  {
    hide FindDelimiter, Split, Delimiter;
    SplitStep(boundary, text);
  }

  /** What is found at a boundary: one of the two markers, as they are written there. */
  lemma FoundAt(boundary: string, segment: string, rest: string)
    requires Prefix(boundary) <= rest
    requires FindDelimiter(Delimiter(boundary), segment + rest, 0).start == |segment|
    ensures var d := Delimiter(boundary);
            var f := FindDelimiter(d, segment + rest, 0);
            || (d.partMarker <= rest && f.length == |d.partMarker|)
            || (d.bodyMarker <= rest && f.length == |d.bodyMarker|
                && Search(segment + rest, d.partMarker, 0).None?)
  {
    var d, text := Delimiter(boundary), segment + rest;
    MarkersStartWithPrefix(boundary);
    assert rest[0] == '\r';
    hide Prefix, Delimiter, OccursAt, Contains;
    OccursShift(segment, rest, d.partMarker, 0);
    OccursShift(segment, rest, d.bodyMarker, 0);
    OccursAtStart(rest, d.partMarker);
    OccursAtStart(rest, d.bodyMarker);
  }

  /** The delimiter after a clean segment is not found before its end. */
  lemma FoundAfterClean(boundary: string, segment: string, rest: string)
    requires '\r' !in boundary && Clean(boundary, segment) && Prefix(boundary) <= rest
    ensures FindDelimiter(Delimiter(boundary), segment + rest, 0).start >= |segment|
  {
    var d, text := Delimiter(boundary), segment + rest;
    var f := FindDelimiter(d, text, 0);
    assert rest[0] == '\r';
    MarkersStartWithPrefix(boundary);
    AboutFound(d, text, 0);
    hide OccursAt, Prefix, Delimiter, Contains, Clean, FindDelimiter;
    if f.start < |segment| {
      NoStraddling(segment, rest, boundary, f.start);
      if OccursAt(text, d.partMarker, f.start) {
        PrefixOccurs(text, boundary, d.partMarker, f.start);
      } else {
        PrefixOccurs(text, boundary, d.bodyMarker, f.start);
      }
    }
  }

  lemma Cancel(head: seq<string>, a: seq<string>, b: seq<string>)
    requires head + a == head + b
    ensures a == b
  {
    assert a == (head + a)[|head|..] && b == (head + b)[|head|..];
  }

  /** What is left behind a segment that is returned as it is. */
  lemma SplitBehind(boundary: string, segment: string, rest: string, length: nat, more: seq<string>)
    requires FindDelimiter(Delimiter(boundary), segment + rest, 0) == Found(|segment|, length)
    requires rest != "" && length <= |rest|
    requires Split(boundary, segment + rest) == (if segment == "" then [] else [segment]) + more
    ensures Split(boundary, rest[length..]) == more
  {
    hide FindDelimiter, Split, Delimiter;
    var text := segment + rest;
    SplitStep(boundary, text);
    assert text[..|segment|] == segment && text[|segment| + length..] == rest[length..];
    Cancel(if segment == "" then [] else [segment], Split(boundary, rest[length..]), more);
  }

  /** A clean part that is returned as it is ends where the delimiter is found. */
  lemma FoundAfterPart(boundary: string, part: string, rest: string, more: seq<string>)
    requires '\r' !in boundary && Clean(boundary, part) && part != "" && Prefix(boundary) <= rest
    requires Split(boundary, part + rest) == [part] + more
    ensures FindDelimiter(Delimiter(boundary), part + rest, 0).start == |part|
  {
    hide FindDelimiter, Split, Delimiter, Prefix, Clean;
    FoundAfterClean(boundary, part, rest);
    FirstSplit(boundary, part + rest);
    assert ([part] + more)[0] == part;
  }

  /** After a clean part that is returned as it is, a marker follows, and what is left is split. */
  lemma AfterPart(boundary: string, part: string, rest: string, more: seq<string>)
    requires '\r' !in boundary && Clean(boundary, part) && part != "" && Prefix(boundary) <= rest
    requires Split(boundary, part + rest) == [part] + more
    ensures var d := Delimiter(boundary);
            || (d.partMarker <= rest && Split(boundary, rest[|d.partMarker|..]) == more)
            || (d.bodyMarker <= rest && Split(boundary, rest[|d.bodyMarker|..]) == more
                && Search(part + rest, d.partMarker, 0).None?)
  {
    assert rest[0] == '\r';
    hide FindDelimiter, Split, Delimiter, Prefix, Clean, Search;
    FoundAfterPart(boundary, part, rest, more);
    FoundAt(boundary, part, rest);
    var f := FindDelimiter(Delimiter(boundary), part + rest, 0);
    SplitBehind(boundary, part, rest, f.length, more);
  }

  lemma {:induction false} PiecesAreShort(d: FormDataDelimiter, text: string, pos: nat)
    requires Usable(d) && pos <= |text|
    ensures forall s :: s in Pieces(d, text, pos) ==> |s| <= |text| - pos
    ensures FindDelimiter(d, text, pos).start < |text| ==>
              forall s :: s in Pieces(d, text, pos) ==> |s| < |text| - pos
    decreases |text| - pos
  {
    hide FindDelimiter, Pieces, NonEmpty;
    var f := FindDelimiter(d, text, pos);
    PiecesStep(d, text, pos);
    if f.start < |text| {
      PiecesAreShort(d, text, f.start + f.length);
    }
  }

  /** An epilogue that is returned as it is holds no marker. */
  lemma EpilogueIsWhole(boundary: string, epilogue: string)
    requires !Contains("\r\n" + epilogue, Delimiter(boundary).partMarker)
    requires Split(boundary, epilogue) == if epilogue == "" then [] else [epilogue]
    ensures EpilogueFits(boundary, epilogue)
  {
    hide FindDelimiter, Pieces, NonEmpty, Delimiter, Contains;
    var d := Delimiter(boundary);
    PiecesAreShort(d, epilogue, 0);
    AboutFound(d, epilogue, 0);
    NonEmptyHas(Pieces(d, epilogue, 0), epilogue);
    assert epilogue in [epilogue];
    assert epilogue[0..|epilogue|] == epilogue;
  }

  /** The last part and the epilogue are returned only if the last boundary is closed. */
  lemma ClosingIsClosed(boundary: string, part: string, closePadding: string, epilogue: Option<string>)
    requires '\r' !in boundary && Clean(boundary, part) && part != "" && IsPadding(closePadding)
    requires Split(boundary, part + Closing(boundary, closePadding, epilogue)) == [part] + IfAny(epilogue)
    ensures IsClosed(closePadding, epilogue) && EpilogueFits(boundary, epilogue.value)
  {
    hide Clean, Split, IsPadding, Search, Contains;
    var d, rest := Delimiter(boundary), Closing(boundary, closePadding, epilogue);
    AfterPart(boundary, part, rest, IfAny(epilogue));
    ClosingStartsNoPart(boundary, closePadding, epilogue);
    if !IsClosed(closePadding, epilogue) {
      UnclosedIsBad(boundary, closePadding, epilogue);
    } else {
      ClosedIsBodyMarker(boundary, epilogue.value);
      hide Closing, Delimiter;
      NoPartMarkerBefore(boundary, part, epilogue.value);
      EpilogueIsWhole(boundary, epilogue.value);
    }
  }

  lemma ClosingStartsNoPart(boundary: string, closePadding: string, epilogue: Option<string>)
    ensures !(Delimiter(boundary).partMarker <= Closing(boundary, closePadding, epilogue))
  {
    var rest, n := Closing(boundary, closePadding, epilogue), |Prefix(boundary)|;
    MarkersStartWithPrefix(boundary);
    assert rest[n] == '-' && Delimiter(boundary).partMarker[n] == '\r';
  }

  lemma ClosedIsBodyMarker(boundary: string, epilogue: string)
    ensures var d, rest := Delimiter(boundary), Closing(boundary, "", Some(epilogue));
            && rest == d.bodyMarker + epilogue && rest[|d.bodyMarker|..] == epilogue
  {
    MarkersStartWithPrefix(boundary);
    assert "--" + "" + ("\r\n" + epilogue) == "--\r\n" + epilogue;
  }

  /** Without a part marker in part, closing marker and epilogue, there is none at their seam. */
  lemma NoPartMarkerBefore(boundary: string, part: string, epilogue: string)
    requires var d := Delimiter(boundary);
             Search(part + (d.bodyMarker + epilogue), d.partMarker, 0).None?
    ensures !Contains("\r\n" + epilogue, Delimiter(boundary).partMarker)
  {
    var d := Delimiter(boundary);
    var before := part + (Prefix(boundary) + "--");
    MarkersStartWithPrefix(boundary);
    assert part + (d.bodyMarker + epilogue) == before + ("\r\n" + epilogue);
    hide OccursAt, Prefix, Delimiter;
    if i: nat :| OccursAt("\r\n" + epilogue, d.partMarker, i) {
      OccursShift(before, "\r\n" + epilogue, d.partMarker, i);
    }
  }

  /** A padded boundary, or one before a part, as the search sees it. */
  lemma PartBoundary(boundary: string, bodies: seq<Encapsulated>, closePadding: string,
                     epilogue: Option<string>)
    requires bodies != [] && IsPadding(bodies[0].padding)
    ensures var d, rest := Delimiter(boundary), FromBreak(boundary, bodies, closePadding, epilogue);
            && !(d.bodyMarker <= rest)
            && (d.partMarker <= rest <==> bodies[0].padding == "")
            && (bodies[0].padding == "" ==>
                  rest == d.partMarker
                          + (bodies[0].part + FromBreak(boundary, bodies[1..], closePadding, epilogue)))
  {
    var d, rest := Delimiter(boundary), FromBreak(boundary, bodies, closePadding, epilogue);
    var after := FromBreak(boundary, bodies[1..], closePadding, epilogue);
    var more := "\r\n" + bodies[0].part + after;
    assert rest == Prefix(boundary) + (bodies[0].padding + more);
    MarkersStartWithPrefix(boundary);
    if bodies[0].padding != "" {
      hide FromBreak;
      PaddedIsBad(boundary, bodies[0].padding, more);
    } else {
      hide FromBreak;
      var n := |Prefix(boundary)|;
      assert rest[n] == '\r' && d.bodyMarker[n] == '-';
      hide Prefix, Delimiter;
      StrictPart(Prefix(boundary), bodies[0].part, after);
    }
  }

  /** If a part and all that follow are returned, the rest of the body is strict and fits. */
  lemma {:induction false} PartsAreStrict(boundary: string, part: string, bodies: seq<Encapsulated>,
                                          closePadding: string, epilogue: Option<string>)
    requires '\r' !in boundary && Clean(boundary, part) && part != ""
    requires BodiesAllowed(boundary, bodies) && IsPadding(closePadding) && "" !in PartsOf(bodies)
    requires Split(boundary, part + FromBreak(boundary, bodies, closePadding, epilogue)) ==
             [part] + (PartsOf(bodies) + IfAny(epilogue))
    ensures Unpadded(bodies) && IsClosed(closePadding, epilogue) && EpilogueFits(boundary, epilogue.value)
    decreases |bodies|
  {
    if bodies == [] {
      assert PartsOf(bodies) + IfAny(epilogue) == IfAny(epilogue);
      hide Split, Clean, Closing;
      ClosingIsClosed(boundary, part, closePadding, epilogue);
    } else {
      var rest := FromBreak(boundary, bodies, closePadding, epilogue);
      var next, after := bodies[0].part, FromBreak(boundary, bodies[1..], closePadding, epilogue);
      var more := PartsOf(bodies) + IfAny(epilogue);
      assert bodies[0] in bodies;
      PartBoundary(boundary, bodies, closePadding, epilogue);
      LinesCleanIsClean(boundary, next);
      AllowedRest(boundary, bodies);
      assert more == [next] + (PartsOf(bodies[1..]) + IfAny(epilogue));
      hide Split, Clean, FromBreak, Delimiter, Prefix, BodiesAllowed, Unpadded, IsPadding, PartsOf;
      AfterPart(boundary, part, rest, more);
      assert rest[|Delimiter(boundary).partMarker|..] == next + after;
      PartsAreStrict(boundary, next, bodies[1..], closePadding, epilogue);
      UnpaddedFirst(bodies);
    }
  }

  lemma AllowedRest(boundary: string, bodies: seq<Encapsulated>)
    requires bodies != [] && BodiesAllowed(boundary, bodies) && "" !in PartsOf(bodies)
    ensures BodiesAllowed(boundary, bodies[1..]) && "" !in PartsOf(bodies[1..])
    ensures bodies[0].part != "" && PartsOf(bodies) == [bodies[0].part] + PartsOf(bodies[1..])
    ensures IsPadding(bodies[0].padding) && LinesClean(boundary, bodies[0].part)
  {
    hide LinesClean;
    assert bodies[0] in bodies && PartsOf(bodies)[0] == bodies[0].part;
    assert forall i :: 0 <= i < |bodies| - 1 ==> PartsOf(bodies)[i + 1] == PartsOf(bodies[1..])[i];
  }

  lemma UnpaddedFirst(bodies: seq<Encapsulated>)
    requires bodies != [] && bodies[0].padding == "" && Unpadded(bodies[1..])
    ensures Unpadded(bodies)
  {
    assert forall i :: 0 < i < |bodies| ==> bodies[i] == bodies[1..][i - 1];
  }

  // ----- The preamble -----

  /** The preamble holds no part marker, not even one that ends in the line break after it. */
  ghost predicate PreambleFits(boundary: string, preamble: string) {
    !Contains(preamble + "\r\n", Delimiter(boundary).partMarker)
  }

  /** Without a part marker in the text no piece holds a closing marker. */
  lemma {:induction false} NoBodyMarkerInPieces(d: FormDataDelimiter, text: string, pos: nat)
    requires Usable(d) && pos <= |text| && Search(text, d.partMarker, pos).None?
    ensures forall s :: s in Pieces(d, text, pos) ==> !Contains(s, d.bodyMarker)
    decreases |text| - pos
  {
    hide OccursAt, Pieces, NonEmpty, Contains;
    var f := FindDelimiter(d, text, pos);
    PiecesStep(d, text, pos);
    FirstBodyMarker(d, text, pos);
    if f.start < |text| {
      NoBodyMarkerInPieces(d, text, f.start + f.length);
    }
  }

  lemma FirstBodyMarker(d: FormDataDelimiter, text: string, pos: nat)
    requires Usable(d) && pos <= |text| && Search(text, d.partMarker, pos).None?
    ensures !Contains(text[pos..FindDelimiter(d, text, pos).start], d.bodyMarker)
    ensures var f := FindDelimiter(d, text, pos);
            f.start < |text| ==> Search(text, d.partMarker, f.start + f.length).None?
  {
    hide OccursAt;
    var f := FindDelimiter(d, text, pos);
    OccursInSlice(text, d.bodyMarker, pos, f.start);
  }

  lemma OneCarriageReturn(boundary: string, n: nat)
    requires '\r' !in boundary && 0 < n < |Prefix(boundary)|
    ensures Prefix(boundary)[n] != '\r'
  {
    assert n >= 4 ==> Prefix(boundary)[n] == boundary[n - 4];
  }

  /** A marker at the start of the text that is not within the preamble ends just behind it. */
  lemma MarkerOverEnd(boundary: string, preamble: string, rest: string, marker: string)
    requires '\r' !in boundary && preamble != "" && Prefix(boundary) <= rest
    requires marker == Delimiter(boundary).partMarker || marker == Delimiter(boundary).bodyMarker
    requires OccursAt(preamble + rest, marker, 0) && !Contains(preamble, marker)
    ensures |preamble| + 2 == |marker| && preamble[0] == '\r'
    ensures (preamble + rest)[|marker|..] == rest[2..] && |rest| > 2 && rest[2] == '-'
  {
    var text, n := preamble + rest, |preamble|;
    MarkersStartWithPrefix(boundary);
    assert text[0 + 0] == marker[0];
    if |marker| <= n {
      assert text[..n] == preamble;
      OccursInPiece(text, marker, 0, n, 0);
    } else {
      assert rest[0] == '\r' && rest[2] == '-';
      assert text[0 + n] == marker[n] && marker[n] == '\r';
      assert |Prefix(boundary)| > n ==> marker[n] == Prefix(boundary)[n];
      if n < |Prefix(boundary)| {
        OneCarriageReturn(boundary, n);
      }
    }
  }

  /** A preamble that is returned as it is does not start with a marker. */
  lemma PreambleStartsNoMarker(boundary: string, preamble: string, rest: string)
    requires '\r' !in boundary && preamble != "" && Prefix(boundary) <= rest
    requires Split(boundary, preamble + rest) != [] && Split(boundary, preamble + rest)[0] == preamble
    ensures FindDelimiter(Delimiter(boundary), preamble + rest, 0).start > 0
  {
    var d, text := Delimiter(boundary), preamble + rest;
    var f := FindDelimiter(d, text, 0);
    if f.start == 0 {
      var marker := FirstMarker(boundary, preamble, rest);
      MarkerOverEnd(boundary, preamble, rest, marker);
      SplitStep(boundary, text);
      assert Split(boundary, text) == Split(boundary, rest[2..]);
      DashFirst(boundary, rest[2..]);
    }
  }

  /** The marker that is found at the start is not within the preamble. */
  lemma FirstMarker(boundary: string, preamble: string, rest: string) returns (marker: string)
    requires preamble != ""
    requires Split(boundary, preamble + rest) != [] && Split(boundary, preamble + rest)[0] == preamble
    requires FindDelimiter(Delimiter(boundary), preamble + rest, 0).start == 0
    ensures marker == Delimiter(boundary).partMarker || marker == Delimiter(boundary).bodyMarker
    ensures OccursAt(preamble + rest, marker, 0) && !Contains(preamble, marker)
    ensures FindDelimiter(Delimiter(boundary), preamble + rest, 0).length == |marker|
  {
    var d, text := Delimiter(boundary), preamble + rest;
    hide Delimiter, OccursAt, Contains, Pieces, NonEmpty;
    NonEmptyHas(Pieces(d, text, 0), preamble);
    if Search(text, d.partMarker, 0).Some? {
      marker := d.partMarker;
      PiecesAreSplit(d, text, 0);
    } else {
      marker := d.bodyMarker;
      NoBodyMarkerInPieces(d, text, 0);
    }
  }

  /** A text that starts with a dash has a first piece that does. */
  lemma DashFirst(boundary: string, text: string)
    requires text != "" && text[0] == '-'
    ensures Split(boundary, text) != [] && Split(boundary, text)[0] != ""
    ensures Split(boundary, text)[0][0] == '-'
  {
    var d := Delimiter(boundary);
    var f := FindDelimiter(d, text, 0);
    AboutFound(d, text, 0);
    if f.start == 0 {
      if OccursAt(text, d.partMarker, 0) {
        OccursFirst(text, d.partMarker, 0);
      } else {
        OccursFirst(text, d.bodyMarker, 0);
      }
    }
    FirstSplit(boundary, text);
  }

  /** The first delimiter is where the preamble ends, if preamble and first part are returned. */
  lemma FoundAfterPreamble(boundary: string, preamble: string, rest: string, more: seq<string>)
    requires '\r' !in boundary && Prefix(boundary) <= rest
    requires more != [] && Clean(boundary, more[0])
    requires Split(boundary, preamble + rest) == (if preamble == "" then [] else [preamble]) + more
    ensures FindDelimiter(Delimiter(boundary), preamble + rest, 0).start == |preamble|
  {
    var d, text := Delimiter(boundary), preamble + rest;
    var f := FindDelimiter(d, text, 0);
    assert rest[0] == '\r';
    hide FindDelimiter, Split, Delimiter;
    if preamble == "" {
      assert text == rest && [] + more == more;
      if f.start > 0 {
        FirstSplit(boundary, text);
        FirstHasBoundary(boundary, rest);
      }
    } else {
      assert ([preamble] + more)[0] == preamble;
      PreambleStartsNoMarker(boundary, preamble, rest);
      FirstSplit(boundary, text);
    }
  }

  lemma FirstHasBoundary(boundary: string, rest: string)
    requires '\r' !in boundary && Prefix(boundary) <= rest
    requires FindDelimiter(Delimiter(boundary), rest, 0).start > 0
    ensures !Clean(boundary, rest[..FindDelimiter(Delimiter(boundary), rest, 0).start])
  {
    var d := Delimiter(boundary);
    var f := FindDelimiter(d, rest, 0);
    OccursAtStart(rest, Prefix(boundary));
    AboutFound(d, rest, 0);
    MarkersStartWithPrefix(boundary);
    if f.start < |Prefix(boundary)| {
      if OccursAt(rest, d.partMarker, f.start) {
        NoMarkerInside(boundary, rest, d.partMarker, 0, f.start);
      } else {
        NoMarkerInside(boundary, rest, d.bodyMarker, 0, f.start);
      }
    }
    OccursInPiece(rest, Prefix(boundary), 0, f.start, 0);
    assert rest[0..f.start] == rest[..f.start];
  }

  /** The part marker is first found behind the preamble exactly if the preamble fits. */
  lemma PreambleFitsExactly(boundary: string, preamble: string, rest: string)
    requires '\r' !in boundary && Delimiter(boundary).partMarker <= rest
    ensures Search(preamble + rest, Delimiter(boundary).partMarker, 0) == Some(|preamble|) <==>
            PreambleFits(boundary, preamble)
  {
    var d, text, n := Delimiter(boundary), preamble + rest, |preamble|;
    StartsLine(preamble, rest, d.partMarker);
    OccursShift(preamble, rest, d.partMarker, 0);
    OccursAtStart(rest, d.partMarker);
    hide Delimiter, OccursAt;
    var r := Search(text, d.partMarker, 0);
    assert OccursAt(text, d.partMarker, n + 0);
    assert r.Some? && r.value <= n;
    if r.value < n {
      EndsWithBreak(boundary, preamble, rest, r.value);
      OccursInPiece(text, d.partMarker, 0, n + 2, r.value);
    } else if i: nat :| OccursAt(preamble + "\r\n", d.partMarker, i) {
      OccursEarlier(text, d.partMarker, n + 2, i);
      OccursWithin(preamble + "\r\n", d.partMarker, i);
    }
  }

  lemma StartsLine(preamble: string, rest: string, marker: string)
    requires |marker| > 2 && marker[0] == '\r' && marker[1] == '\n' && marker <= rest
    ensures rest[0] == '\r' && (preamble + rest)[0..|preamble| + 2] == preamble + "\r\n"
    ensures (preamble + rest)[..|preamble| + 2] == preamble + "\r\n"
  {
  }

  lemma OccursWithin(text: string, marker: string, i: nat)
    requires OccursAt(text, marker, i)
    ensures i + |marker| <= |text|
  {
  }

  lemma OccursEarlier(text: string, marker: string, n: nat, i: nat)
    requires n <= |text| && OccursAt(text[..n], marker, i)
    ensures OccursAt(text, marker, i)
  {
    assert forall j :: 0 <= j < |marker| ==> text[i + j] == marker[j];
  }

  /** A part marker that starts before a boundary reaches at most over its line break. */
  lemma EndsWithBreak(boundary: string, preamble: string, rest: string, i: nat)
    requires '\r' !in boundary && rest != "" && rest[0] == '\r' && i < |preamble|
    requires OccursAt(preamble + rest, Delimiter(boundary).partMarker, i)
    ensures i + |Delimiter(boundary).partMarker| <= |preamble| + 2
  {
    var m, j := Delimiter(boundary).partMarker, |preamble| - i;
    MarkersStartWithPrefix(boundary);
    if j < |m| {
      assert (preamble + rest)[i + j] == m[j] && m[j] == '\r';
      assert |Prefix(boundary)| > j ==> m[j] == Prefix(boundary)[j];
      if j < |Prefix(boundary)| {
        OneCarriageReturn(boundary, j);
      }
    }
  }

  // ----- Exactly which bodies are split -----

  /** No part is lost, and the search takes no marker in the preamble or the epilogue first. */
  ghost predicate Fits(boundary: string, l: Layout)
    requires IsStrict(l)
  {
    && "" !in PartsOf(l.bodies)
    && PreambleFits(boundary, l.preamble.value)
    && EpilogueFits(boundary, l.epilogue.value)
  }

  lemma SplitHasNoEmpty(boundary: string, text: string)
    ensures "" !in Split(boundary, text)
  {
    NonEmptyHas(Pieces(Delimiter(boundary), text, 0), "");
  }

  /** A body without a line break before the first boundary keeps it in its first part. */
  lemma UnledIsNotExpected(boundary: string, l: Layout)
    requires IsAllowed(boundary, l) && l.preamble.None? && "" !in PartsOf(l.bodies)
    ensures Split(boundary, Written(boundary, l)) != Expected(l)
  {
    var text := FromBreak(boundary, l.bodies, l.closePadding, l.epilogue);
    hide FromBreak, IsPadding;
    AllowedRest(boundary, l.bodies);
    var first := PartsOf(l.bodies)[0];
    assert Expected(l)[0] == first;
    hide Clean, Pieces, Delimiter, Prefix, Expected;
    StartsWithBreak(boundary, text);
    var piece := LeadingStays(boundary, text[2..]);
    assert Split(boundary, text[2..])[0] == piece;
  }

  /** If the result is what was written, the body is strict and fits. */
  lemma ExpectedIsStrict(boundary: string, l: Layout)
    requires IsAllowed(boundary, l) && Split(boundary, Written(boundary, l)) == Expected(l)
    ensures IsStrict(l) && Fits(boundary, l)
  {
    SplitHasNoEmpty(boundary, Written(boundary, l));
    assert forall s :: s in PartsOf(l.bodies) ==> s in Expected(l);
    if l.preamble.None? {
      UnledIsNotExpected(boundary, l);
    } else {
      var rest := FromBreak(boundary, l.bodies, l.closePadding, l.epilogue);
      hide Split, Clean, FromBreak, Prefix, Delimiter, IsPadding, BodiesAllowed;
      AllowedRest(boundary, l.bodies);
      var first, bodies := l.bodies[0].part, l.bodies[1..];
      var more := [first] + (PartsOf(bodies) + IfAny(l.epilogue));
      assert Expected(l) == (if l.preamble.value == "" then [] else [l.preamble.value]) + more;
      LinesCleanIsClean(boundary, first);
      PartBoundary(boundary, l.bodies, l.closePadding, l.epilogue);
      PreambleFollowed(boundary, l.preamble.value, rest, more);
      var d := Delimiter(boundary);
      assert rest[|d.partMarker|..] ==
             first + FromBreak(boundary, bodies, l.closePadding, l.epilogue);
      PartsAreStrict(boundary, first, bodies, l.closePadding, l.epilogue);
      UnpaddedFirst(l.bodies);
    }
  }

  /** After a preamble that is returned as it is, a part marker follows, and the preamble fits. */
  lemma PreambleFollowed(boundary: string, preamble: string, rest: string, more: seq<string>)
    requires '\r' !in boundary && Prefix(boundary) <= rest && !(Delimiter(boundary).bodyMarker <= rest)
    requires more != [] && Clean(boundary, more[0])
    requires Split(boundary, preamble + rest) == (if preamble == "" then [] else [preamble]) + more
    ensures Delimiter(boundary).partMarker <= rest && PreambleFits(boundary, preamble)
    ensures Split(boundary, rest[|Delimiter(boundary).partMarker|..]) == more
  {
    var d, text, n := Delimiter(boundary), preamble + rest, |preamble|;
    assert rest[0] == '\r';
    FoundAfterPreamble(boundary, preamble, rest, more);
    FoundAt(boundary, preamble, rest);
    PartMarkerFirst(d, text);
    hide FindDelimiter, Split, Delimiter, Clean, Prefix, PreambleFits, Search;
    var f := FindDelimiter(d, text, 0);
    PreambleFitsExactly(boundary, preamble, rest);
    SplitBehind(boundary, preamble, rest, f.length, more);
  }

  lemma PartMarkerFirst(d: FormDataDelimiter, text: string)
    requires Usable(d)
    ensures var f := FindDelimiter(d, text, 0);
            Search(text, d.partMarker, 0).Some? ==> Search(text, d.partMarker, 0) == Some(f.start)
    ensures Search(text, d.partMarker, 0).Some? ==>
              FindDelimiter(d, text, 0).length == |d.partMarker|
  {
  }

  /** A strict body that fits is split into what was written. */
  lemma StrictIsExpected(boundary: string, l: Layout)
    requires IsAllowed(boundary, l) && IsStrict(l) && Fits(boundary, l)
    ensures Split(boundary, Written(boundary, l)) == Expected(l)
  {
    hide Clean, Pieces, NonEmpty, Delimiter, FromBreak, Prefix, Search, EpilogueFits, PreambleFits,
         FindDelimiter, Split, BodiesAllowed, IsPadding;
    var preamble, epilogue := l.preamble.value, l.epilogue.value;
    var rest := FromBreak(boundary, l.bodies, l.closePadding, l.epilogue);
    AllowedRest(boundary, l.bodies);
    var first, bodies := l.bodies[0].part, l.bodies[1..];
    var d, text := Delimiter(boundary), preamble + rest;
    PartBoundary(boundary, l.bodies, l.closePadding, l.epilogue);
    PreambleFitsExactly(boundary, preamble, rest);
    PartMarkerFirst(d, text);
    SplitStep(boundary, text);
    StrictFromBreak(boundary, bodies, epilogue);
    var last := first + Tail(boundary, PartsOf(bodies), epilogue);
    hide Tail, PartsOf;
    assert text[..|preamble|] == preamble && text[|preamble| + |d.partMarker|..] == last;
    CleanParts(boundary, l.bodies);
    SplitOfParts(boundary, first, PartsOf(bodies), epilogue);
    assert Expected(l) == (if preamble == "" then [] else [preamble])
                          + ([first] + PartsOf(bodies) + IfAny(l.epilogue));
  }

  lemma CleanParts(boundary: string, bodies: seq<Encapsulated>)
    requires bodies != [] && BodiesAllowed(boundary, bodies) && "" !in PartsOf(bodies)
    ensures Clean(boundary, bodies[0].part) && AllClean(boundary, PartsOf(bodies[1..]))
    ensures bodies[0].part != "" && "" !in PartsOf(bodies[1..])
  {
    hide Clean;
    AllowedRest(boundary, bodies);
    LinesCleanIsClean(boundary, bodies[0].part);
    forall s | s in PartsOf(bodies[1..])
      ensures Clean(boundary, s)
    {
      var i :| 0 <= i < |bodies| - 1 && bodies[1..][i].part == s;
      assert bodies[i + 1] in bodies;
      LinesCleanIsClean(boundary, s);
    }
  }

  lemma SplitOfParts(boundary: string, first: string, parts: seq<string>, epilogue: string)
    requires '\r' !in boundary && Clean(boundary, first) && first != ""
    requires AllClean(boundary, parts) && "" !in parts && EpilogueFits(boundary, epilogue)
    ensures Split(boundary, first + Tail(boundary, parts, epilogue)) ==
            [first] + parts + if epilogue == "" then [] else [epilogue]
  {
    hide Clean, Pieces, Delimiter, Tail;
    var text := first + Tail(boundary, parts, epilogue);
    assert "" + text == text;
    PiecesOfBody("", first, boundary, parts, epilogue);
    NonEmptyOfAll([first] + parts, epilogue);
  }

  /**
   * A body that RFC 2046 allows is split into its parts, with the preamble and the epilogue where
   * there are any, if and only if all its line breaks are there, no boundary is padded, no part is
   * empty, and preamble and epilogue hold no marker that the search takes first.
   */
  lemma SplitsExactlyStrictBodies(boundary: string, l: Layout)
    requires IsAllowed(boundary, l)
    ensures Split(boundary, Written(boundary, l)) == Expected(l) <==> IsStrict(l) && Fits(boundary, l)
  {
    hide Split, Written, IsAllowed, Fits, Expected;
    if Split(boundary, Written(boundary, l)) == Expected(l) {
      ExpectedIsStrict(boundary, l);
    }
    if IsStrict(l) && Fits(boundary, l) {
      StrictIsExpected(boundary, l);
    }
  }

  /** A text whose lines are clean fits before and after the parts. */
  lemma LinesCleanFits(boundary: string, s: string)
    requires '\r' !in boundary && LinesClean(boundary, s)
    ensures PreambleFits(boundary, s) && EpilogueFits(boundary, s)
  {
    var d := Delimiter(boundary);
    MarkersStartWithPrefix(boundary);
    LinesCleanIsClean(boundary, s);
    hide OccursAt, Prefix, Delimiter;
    if i: nat :| OccursAt("\r\n" + s, d.partMarker, i) {
      PrefixOccurs("\r\n" + s, boundary, d.partMarker, i);
    }
    if i: nat :| OccursAt(s, d.bodyMarker, i) {
      PrefixOccurs(s, boundary, d.bodyMarker, i);
    }
    if i: nat :| OccursAt(s + "\r\n", d.partMarker, i) {
      PartMarkerNeedsPrefix(boundary, s, i);
    }
  }

  lemma PartMarkerNeedsPrefix(boundary: string, s: string, i: nat)
    requires '\r' !in boundary && OccursAt(s + "\r\n", Delimiter(boundary).partMarker, i)
    ensures OccursAt(s, Prefix(boundary), i)
  {
    var p := Prefix(boundary);
    MarkersStartWithPrefix(boundary);
    PrefixOccurs(s + "\r\n", boundary, Delimiter(boundary).partMarker, i);
    assert i + |p| <= |s|;
    assert forall j :: 0 <= j < |p| ==> (s + "\r\n")[i + j] == p[j];
  }

  /**
   * With clean lines before and after them, the parts alone are returned exactly if moreover
   * there is nothing before and after them.
   */
  lemma SplitsIntoPartsAlone(boundary: string, l: Layout)
    requires IsAllowed(boundary, l)
    requires l.preamble.Some? ==> LinesClean(boundary, l.preamble.value)
    requires l.epilogue.Some? ==> LinesClean(boundary, l.epilogue.value)
    ensures Split(boundary, Written(boundary, l)) == PartsOf(l.bodies) <==>
            && IsStrict(l) && "" !in PartsOf(l.bodies)
            && l.preamble == Some("") && l.epilogue == Some("")
  {
    hide Split, Written, LinesClean, PreambleFits, EpilogueFits, BodiesAllowed, IsPadding;
    SplitHasNoEmpty(boundary, Written(boundary, l));
    if IsStrict(l) {
      LinesCleanFits(boundary, l.preamble.value);
      LinesCleanFits(boundary, l.epilogue.value);
      SplitsExactlyStrictBodies(boundary, l);
    } else {
      var piece := UnstrictShows(boundary, l);
      if piece in PartsOf(l.bodies) {
        PartIsLinesClean(boundary, l.bodies, piece);
      }
    }
  }

  lemma PartIsLinesClean(boundary: string, bodies: seq<Encapsulated>, s: string)
    requires BodiesAllowed(boundary, bodies) && s in PartsOf(bodies)
    ensures LinesClean(boundary, s)
  {
    hide LinesClean;
    var i :| 0 <= i < |bodies| && bodies[i].part == s;
    assert bodies[i] in bodies;
  }

  /** A boundary line in the epilogue: a strict body that is not split into what was written. */
  lemma EpilogueSwallowsClosing(boundary: string, part: string, more: string)
    requires '\r' !in boundary && part != "" && LinesClean(boundary, part)
    ensures var epilogue := "\r\n--" + boundary + "\r\n" + more;
            var l := Layout(Some(""), [Encapsulated("", part)], "", Some(epilogue));
            && IsAllowed(boundary, l) && IsStrict(l)
            && Split(boundary, Written(boundary, l)) != Expected(l)
  {
    var epilogue := "\r\n--" + boundary + "\r\n" + more;
    var l := Layout(Some(""), [Encapsulated("", part)], "", Some(epilogue));
    var d, text := Delimiter(boundary), "\r\n" + epilogue;
    MarkersStartWithPrefix(boundary);
    assert text == "\r\n" + d.partMarker + more;
    hide Prefix, Delimiter, LinesClean, Split, Written;
    assert OccursAt(text, d.partMarker, 2);
    SplitsExactlyStrictBodies(boundary, l);
  }
}
