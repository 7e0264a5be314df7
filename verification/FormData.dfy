/**
 * The multipart delimiter of the form-data example, and the split that uses it. The reference is
 * the body layout of RFC 2046 section 5.1.1.
 */
module FormData {
  import opened Wrappers
  import opened Text

  // ----- The delimiter -----

  datatype FormDataDelimiter = FormDataDelimiter(bodyMarker: string, partMarker: string)

  /** The result of `Find`: where the delimiter starts, and its length; at the end, nothing. */
  datatype Found = Found(start: nat, length: nat)

  /** The part marker is looked for first, wherever the body marker is. */
  function FindDelimiter(d: FormDataDelimiter, text: string, pos: nat): (f: Found)
    requires pos <= |text|
    ensures pos <= f.start && f.start + f.length <= |text|
  {
    match Search(text, d.partMarker, pos)
    case Some(i) => Found(i, |d.partMarker|)
    case None =>
      match Search(text, d.bodyMarker, pos)
      case Some(i) => Found(i, |d.bodyMarker|)
      case None => Found(|text|, 0)
  }

  predicate Usable(d: FormDataDelimiter) {
    d.bodyMarker != "" && d.partMarker != ""
  }

  /** The pieces of `text[pos..]` between delimiters, the empty ones included. */
  function Pieces(d: FormDataDelimiter, text: string, pos: nat): (r: seq<string>)
    requires Usable(d) && pos <= |text|
    decreases |text| - pos
  {
    var f := FindDelimiter(d, text, pos);
    [text[pos..f.start]] + if f.start == |text| then [] else Pieces(d, text, f.start + f.length)
  }

  function NonEmpty(pieces: seq<string>): seq<string> {
    if pieces == [] then []
    else (if pieces[0] == "" then [] else [pieces[0]]) + NonEmpty(pieces[1..])
  }

  /** One round of the split: the piece up to the next delimiter, and whether it is the last. */
  lemma PiecesStep(d: FormDataDelimiter, text: string, pos: nat)
    requires Usable(d) && pos <= |text|
    ensures var f := FindDelimiter(d, text, pos);
            var piece := text[pos..f.start];
            && (f.start < |text| ==> f.length > 0)
            && Pieces(d, text, pos)
            == [piece] + (if f.start == |text| then [] else Pieces(d, text, f.start + f.length))
            && NonEmpty(Pieces(d, text, pos))
            == (if piece == "" then [] else [piece])
               + (if f.start == |text| then [] else NonEmpty(Pieces(d, text, f.start + f.length)))
  {
    hide OccursAt;
    var f, pieces := FindDelimiter(d, text, pos), Pieces(d, text, pos);
    assert pieces[1..] == if f.start == |text| then [] else Pieces(d, text, f.start + f.length);
  }

  /** `absl::StrSplit(text, delimiter, SkipEmpty())`. */
  method StrSplit(text: string, d: FormDataDelimiter) returns (parts: seq<string>)
    requires Usable(d)
    ensures parts == NonEmpty(Pieces(d, text, 0))
  {
    hide *;
    parts := [];
    var pos := 0;
    var last := false;
    while !last
      invariant pos <= |text|
      invariant NonEmpty(Pieces(d, text, 0)) == parts + if last then [] else NonEmpty(Pieces(d, text, pos))
      decreases if last then 0 else 1, |text| - pos
    {
      PiecesStep(d, text, pos);
      var f := FindDelimiter(d, text, pos);
      last := f.start == |text|;
      var piece := text[pos..f.start];
      pos := f.start + f.length;
      if piece != "" {
        MoveOver(parts, piece, if last then [] else NonEmpty(Pieces(d, text, pos)));
        parts := parts + [piece];
      }
    }
  }

  // ----- The boundary parameter of the header -----

  predicate IsSpace(c: char) {
    c == ' ' || '\t' as int <= c as int <= '\r' as int
  }

  predicate EndsParameter(c: char) {
    c == ';' || IsSpace(c)
  }

  function ToLower(c: char): char {
    if 'A' <= c <= 'Z' then (c as int + 32) as char else c
  }

  const NAME := "boundary="

  /** `[;[:space:]]boundary=` at index `i`, in any case, with a value of at least one character. */
  predicate ParameterAt(header: string, i: nat) {
    && i + |NAME| + 1 < |header|
    && EndsParameter(header[i])
    && (forall j :: 0 <= j < |NAME| ==> ToLower(header[i + 1 + j]) == NAME[j])
    && !EndsParameter(header[i + |NAME| + 1])
  }

  /** The first match of the regular expression, from index `i` on. */
  function FindParameter(header: string, i: nat): (r: Option<nat>)
    requires i <= |header|
    ensures r.Some? ==> i <= r.value && ParameterAt(header, r.value)
    ensures forall j: nat :: i <= j && (r.Some? ==> j < r.value) ==> !ParameterAt(header, j)
    decreases |header| - i
  {
    if ParameterAt(header, i) then Some(i)
    else if i == |header| then None
    else FindParameter(header, i + 1)
  }

  /** The longest prefix that does not end the parameter. */
  function ParameterValue(s: string): (v: string)
    ensures v <= s && (forall i :: 0 <= i < |v| ==> !EndsParameter(v[i]))
    ensures |v| < |s| ==> EndsParameter(s[|v|])
  {
    if s == "" || EndsParameter(s[0]) then "" else [s[0]] + ParameterValue(s[1..])
  }

  /** `match.substr(1, match.size() - 2)` when quoted; the size may wrap, which means to the end. */
  function Unquoted(value: string): string
    requires value != ""
  {
    if value[0] == '"' && value[|value| - 1] == '"' then
      if |value| == 1 then "" else value[1..|value| - 1]
    else value
  }

  function GetBoundary(header: string): Result<string> {
    match FindParameter(header, 0)
    case None => Thrown("cannot find 'boundary=' parameter in header=" + header)
    case Some(i) => Ok(Unquoted(ParameterValue(header[i + |NAME| + 1..])))
  }

  function Delimiter(boundary: string): (d: FormDataDelimiter)
    ensures Usable(d)
  {
    FormDataDelimiter("\r\n--" + boundary + "--\r\n", "\r\n--" + boundary + "\r\n")
  }

  function FromHeader(header: string): (r: Result<FormDataDelimiter>)
    ensures r.Ok? ==> Usable(r.value)
  {
    var boundary :- GetBoundary(header);
    Ok(Delimiter(boundary))
  }

  /** The parts of a request: its `content-type` header gives the delimiter, its body the parts. */
  method Parts(header: string, payload: string) returns (r: Result<seq<string>>)
    ensures r == var d :- FromHeader(header); Ok(NonEmpty(Pieces(d, payload, 0)))
  {
    var delimiter := FromHeader(header);
    if delimiter.Thrown? {
      return Thrown(delimiter.what);
    }
    var parts := StrSplit(payload, delimiter.value);
    return Ok(parts);
  }

  // ----- Splitting loses nothing -----

  /** `text[pos..]` is made of `pieces` with one of the two markers between neighbours. */
  ghost predicate Interleaves(d: FormDataDelimiter, text: string, pos: nat, pieces: seq<string>)
    requires pos <= |text|
    decreases |pieces|
  {
    if |pieces| <= 1 then pieces == [text[pos..]]
    else
      var i := pos + |pieces[0]|;
      && i <= |text| && text[pos..i] == pieces[0]
      && (|| (OccursAt(text, d.partMarker, i) && Interleaves(d, text, i + |d.partMarker|, pieces[1..]))
          || (OccursAt(text, d.bodyMarker, i) && Interleaves(d, text, i + |d.bodyMarker|, pieces[1..])))
  }

  /** The delimiter found is one of the two markers, and the piece before it is clear of them. */
  lemma AboutFound(d: FormDataDelimiter, text: string, pos: nat)
    requires Usable(d) && pos <= |text|
    ensures var f := FindDelimiter(d, text, pos);
            var piece := text[pos..f.start];
            && !Contains(piece, d.partMarker)
            && (if f.start == |text| then !Contains(piece, d.bodyMarker)
                else || (OccursAt(text, d.partMarker, f.start) && f.length == |d.partMarker|)
                     || (OccursAt(text, d.bodyMarker, f.start) && f.length == |d.bodyMarker|))
  {
    hide OccursAt, Search, Contains;
    var f := FindDelimiter(d, text, pos);
    OccursInSlice(text, d.partMarker, pos, f.start);
    OccursInSlice(text, d.bodyMarker, pos, f.start);
  }

  /** For any text: the pieces and the markers between them give the text back. */
  lemma {:induction false} PiecesInterleave(d: FormDataDelimiter, text: string, pos: nat)
    requires Usable(d) && pos <= |text|
    ensures Pieces(d, text, pos) != [] && Interleaves(d, text, pos, Pieces(d, text, pos))
    decreases |text| - pos
  {
    hide OccursAt, Pieces, NonEmpty, FindDelimiter, Contains;
    var f := FindDelimiter(d, text, pos);
    PiecesStep(d, text, pos);
    AboutFound(d, text, pos);
    if f.start < |text| {
      PiecesInterleave(d, text, f.start + f.length);
      assert Pieces(d, text, pos)[1..] == Pieces(d, text, f.start + f.length);
    } else {
      assert text[pos..f.start] == text[pos..];
    }
  }

  /** For any text: no piece contains a part marker, and the last contains no body marker. */
  lemma {:induction false} PiecesAreSplit(d: FormDataDelimiter, text: string, pos: nat)
    requires Usable(d) && pos <= |text|
    ensures var ps := Pieces(d, text, pos);
            && ps != []
            && (forall s :: s in ps ==> !Contains(s, d.partMarker))
            && !Contains(ps[|ps| - 1], d.bodyMarker)
    decreases |text| - pos
  {
    hide OccursAt, Pieces, NonEmpty, FindDelimiter, Contains;
    var f := FindDelimiter(d, text, pos);
    PiecesStep(d, text, pos);
    AboutFound(d, text, pos);
    if f.start < |text| {
      PiecesAreSplit(d, text, f.start + f.length);
    }
  }

  lemma OccursInSlice(text: string, marker: string, from: nat, to: nat)
    requires from <= to <= |text| && marker != ""
    ensures Contains(text[from..to], marker) ==> exists i: nat :: from <= i < to && OccursAt(text, marker, i)
  {
    if Contains(text[from..to], marker) {
      var i: nat :| OccursAt(text[from..to], marker, i);
      forall j | 0 <= j < |marker| ensures text[from + i + j] == marker[j] {
        assert text[from + i + j] == text[from..to][i + j];
      }
      assert OccursAt(text, marker, from + i);
    }
  }

  // ----- The round trip -----

  /** What both markers start with; a part must not contain it (RFC 2046 section 5.1.1). */
  function Prefix(boundary: string): string {
    "\r\n--" + boundary
  }

  ghost predicate Clean(boundary: string, s: string) {
    !Contains(s, Prefix(boundary))
  }

  /**
   * The epilogue holds no closing marker, and no part marker, not even one that shares its first
   * line break with the end of the closing marker before it.
   */
  ghost predicate EpilogueFits(boundary: string, epilogue: string) {
    && !Contains("\r\n" + epilogue, Delimiter(boundary).partMarker)
    && !Contains(epilogue, Delimiter(boundary).bodyMarker)
  }

  lemma MarkersStartWithPrefix(boundary: string)
    ensures var d, p := Delimiter(boundary), Prefix(boundary);
            && d.partMarker == p + "\r\n" && d.bodyMarker == p + "--\r\n"
            && p <= d.partMarker && p <= d.bodyMarker
  {
  }

  lemma PrefixOccurs(text: string, boundary: string, marker: string, i: nat)
    requires Prefix(boundary) <= marker
    requires OccursAt(text, marker, i)
    ensures OccursAt(text, Prefix(boundary), i)
  {
    var p := Prefix(boundary);
    assert forall j :: 0 <= j < |p| ==> p[j] == marker[j];
  }

  /**
   * No occurrence of a marker starts inside a clean `part` when the text goes on with another
   * marker: it would need a carriage return inside the boundary, or the prefix inside `part`.
   */
  lemma NoStraddling(part: string, rest: string, boundary: string, i: nat)
    requires '\r' !in boundary && Clean(boundary, part)
    requires rest != "" && rest[0] == '\r'
    requires i < |part|
    ensures !OccursAt(part + rest, Prefix(boundary), i)
  {
    var p, text, j := Prefix(boundary), part + rest, |part| - i;
    if j < |p| {
      assert text[i + j] == '\r';
      assert j >= 4 ==> p[j] == boundary[j - 4];
      assert p[j] != '\r';
    } else {
      assert !OccursAt(part, p, i);
      var k: nat :| k < |p| && part[i + k] != p[k];
      assert text[i + k] == part[i + k];
    }
  }

  /** What follows the preamble: each part after a part marker, then the closing marker. */
  function Tail(boundary: string, parts: seq<string>, epilogue: string): string {
    if parts == [] then Delimiter(boundary).bodyMarker + epilogue
    else Delimiter(boundary).partMarker + (parts[0] + Tail(boundary, parts[1..], epilogue))
  }

  /** A body: preamble, parts, epilogue. */
  function Body(boundary: string, preamble: string, parts: seq<string>, epilogue: string): string {
    preamble + Tail(boundary, parts, epilogue)
  }

  /** No part marker in the closing marker and what follows it. */
  lemma NoPartMarkerInClosing(boundary: string, epilogue: string, i: nat)
    requires '\r' !in boundary && EpilogueFits(boundary, epilogue)
    ensures !OccursAt(Delimiter(boundary).bodyMarker + epilogue, Delimiter(boundary).partMarker, i)
  {
    var d, p, last := Delimiter(boundary), Prefix(boundary), "\r\n" + epilogue;
    var text, m, n := d.bodyMarker + epilogue, d.partMarker, |p|;
    MarkersStartWithPrefix(boundary);
    assert text == (p + "--") + last;
    if i == 0 {
      assert m[n] == '\r' && text[0 + n] == '-';
    } else if i < n + 2 {
      assert 4 <= i < n ==> text[i] == boundary[i - 4];
      assert text[i + 0] != m[0];
    } else {
      OccursShift(p + "--", last, m, i - n - 2);
    }
  }

  lemma OccursShift(done: string, rest: string, marker: string, i: nat)
    ensures OccursAt(done + rest, marker, |done| + i) <==> OccursAt(rest, marker, i)
  {
    var text := done + rest;
    assert forall k :: 0 <= k < |rest| ==> text[|done| + k] == rest[k];
  }

  /** The leftmost occurrence after `done` is found by looking at the rest alone. */
  lemma SearchRest(done: string, rest: string, marker: string)
    ensures var r := Search(done + rest, marker, |done|);
            && (r.None? <==> Search(rest, marker, 0).None?)
            && (r.Some? ==> Search(rest, marker, 0) == Some(r.value - |done|))
  {
    var a, b := Search(done + rest, marker, |done|), Search(rest, marker, 0);
    if a.Some? {
      OccursShift(done, rest, marker, a.value - |done|);
    }
    if b.Some? {
      OccursShift(done, rest, marker, b.value);
    }
  }

  lemma NoMarkerInPart(part: string, rest: string, boundary: string, marker: string, i: nat)
    requires '\r' !in boundary && Clean(boundary, part)
    requires Prefix(boundary) <= marker && marker <= rest
    requires i < |part|
    ensures !OccursAt(part + rest, marker, i)
  {
    assert rest[0] == marker[0] == Prefix(boundary)[0];
    NoStraddling(part, rest, boundary, i);
    hide OccursAt, Prefix;
    if OccursAt(part + rest, marker, i) {
      PrefixOccurs(part + rest, boundary, marker, i);
    }
  }

  /** Where a marker is found after a clean part. */
  lemma SearchAfterPart(part: string, rest: string, boundary: string, marker: string)
    requires '\r' !in boundary && Clean(boundary, part)
    requires Prefix(boundary) <= marker && marker <= rest
    ensures Search(part + rest, marker, 0) == Some(|part|)
  {
    hide Prefix, Contains, Search;
    assert OccursAt(rest, marker, 0);
    hide OccursAt;
    OccursShift(part, rest, marker, 0);
    var r := Search(part + rest, marker, 0);
    if r.value < |part| {
      NoMarkerInPart(part, rest, boundary, marker, r.value);
    }
  }

  lemma NoPartMarkerAtEnd(part: string, boundary: string, epilogue: string)
    requires '\r' !in boundary && Clean(boundary, part) && EpilogueFits(boundary, epilogue)
    ensures Search(part + (Delimiter(boundary).bodyMarker + epilogue), Delimiter(boundary).partMarker, 0).None?
  {
    var rest, m := Delimiter(boundary).bodyMarker + epilogue, Delimiter(boundary).partMarker;
    MarkersStartWithPrefix(boundary);
    var r := Search(part + rest, m, 0);
    if r.Some? {
      if r.value < |part| {
        PrefixOccurs(part + rest, boundary, m, r.value);
        NoStraddling(part, rest, boundary, r.value);
      } else {
        OccursShift(part, rest, m, r.value - |part|);
        NoPartMarkerInClosing(boundary, epilogue, r.value - |part|);
      }
    }
  }

  lemma NoMarkerInEpilogue(boundary: string, epilogue: string)
    requires EpilogueFits(boundary, epilogue)
    ensures Search(epilogue, Delimiter(boundary).partMarker, 0).None?
    ensures Search(epilogue, Delimiter(boundary).bodyMarker, 0).None?
  {
    var marker := Delimiter(boundary).partMarker;
    hide OccursAt;
    var r := Search(epilogue, marker, 0);
    if r.Some? {
      OccursShift("\r\n", epilogue, marker, r.value);
    }
  }

  /** The split finds the delimiter that a body has after `done + part`. */
  lemma FindAfterPart(done: string, part: string, boundary: string, parts: seq<string>, epilogue: string)
    requires '\r' !in boundary && Clean(boundary, part) && EpilogueFits(boundary, epilogue)
    ensures var d := Delimiter(boundary);
            var length := if parts == [] then |d.bodyMarker| else |d.partMarker|;
            FindDelimiter(d, done + (part + Tail(boundary, parts, epilogue)), |done|)
            == Found(|done| + |part|, length)
  {
    var d, rest := Delimiter(boundary), Tail(boundary, parts, epilogue);
    MarkersStartWithPrefix(boundary);
    SearchRest(done, part + rest, d.partMarker);
    if parts == [] {
      NoPartMarkerAtEnd(part, boundary, epilogue);
      SearchRest(done, part + rest, d.bodyMarker);
      SearchAfterPart(part, rest, boundary, d.bodyMarker);
    } else {
      SearchAfterPart(part, rest, boundary, d.partMarker);
    }
  }

  lemma FindInEpilogue(done: string, boundary: string, epilogue: string)
    requires EpilogueFits(boundary, epilogue)
    ensures Pieces(Delimiter(boundary), done + epilogue, |done|) == [epilogue]
  {
    var d := Delimiter(boundary);
    MarkersStartWithPrefix(boundary);
    SearchRest(done, epilogue, d.partMarker);
    SearchRest(done, epilogue, d.bodyMarker);
    NoMarkerInEpilogue(boundary, epilogue);
    PiecesStep(d, done + epilogue, |done|);
    hide OccursAt, Prefix, Search, Pieces, NonEmpty, Contains, Delimiter;
    assert (done + epilogue)[|done|..|done + epilogue|] == epilogue;
  }

  ghost predicate AllClean(boundary: string, parts: seq<string>) {
    forall s :: s in parts ==> Clean(boundary, s)
  }

  lemma PiecesAfterPart(done: string, part: string, boundary: string, parts: seq<string>, epilogue: string)
    requires '\r' !in boundary && Clean(boundary, part) && EpilogueFits(boundary, epilogue)
    ensures var d, tail := Delimiter(boundary), Tail(boundary, parts, epilogue);
            var next := |done| + |part| + if parts == [] then |d.bodyMarker| else |d.partMarker|;
            && next <= |done + (part + tail)|
            && Pieces(d, done + (part + tail), |done|) == [part] + Pieces(d, done + (part + tail), next)
  {
    hide FindDelimiter, Pieces, NonEmpty, Clean, Prefix;
    var d, tail := Delimiter(boundary), Tail(boundary, parts, epilogue);
    assert tail != "";
    hide Tail, Delimiter;
    var text := done + (part + tail);
    FindAfterPart(done, part, boundary, parts, epilogue);
    PiecesStep(d, text, |done|);
    assert text[|done|..|done| + |part|] == part;
  }

  lemma {:induction false} PiecesOfBody(done: string, part: string, boundary: string,
                                        parts: seq<string>, epilogue: string)
    requires '\r' !in boundary && Clean(boundary, part) && AllClean(boundary, parts)
    requires EpilogueFits(boundary, epilogue)
    ensures Pieces(Delimiter(boundary), done + (part + Tail(boundary, parts, epilogue)), |done|)
         == [part] + parts + [epilogue]
    decreases |parts|
  {
    hide Clean, Pieces, Delimiter;
    var d, text := Delimiter(boundary), done + (part + Tail(boundary, parts, epilogue));
    PiecesAfterPart(done, part, boundary, parts, epilogue);
    if parts == [] {
      var done' := done + part + d.bodyMarker;
      assert text == done' + epilogue;
      FindInEpilogue(done', boundary, epilogue);
    } else {
      var done' := done + part + d.partMarker;
      assert text == done' + (parts[0] + Tail(boundary, parts[1..], epilogue));
      PiecesOfBody(done', parts[0], boundary, parts[1..], epilogue);
      assert [parts[0]] + parts[1..] == parts;
    }
  }

  /** The non-empty elements in order, whatever surrounds them. */
  lemma {:induction false} NonEmptyOfAll(parts: seq<string>, last: string)
    requires "" !in parts
    ensures NonEmpty(parts + [last]) == parts + if last == "" then [] else [last]
  {
    if parts == [] {
      assert [last][1..] == [];
    } else {
      NonEmptyOfAll(parts[1..], last);
      assert (parts + [last])[1..] == parts[1..] + [last];
      assert [parts[0]] + parts[1..] == parts;
    }
  }

  /**
   * Round trip: splitting a body gives the preamble if there is one, exactly its parts in
   * order, and the epilogue if there is one.
   */
  lemma RoundTrip(boundary: string, preamble: string, parts: seq<string>, epilogue: string)
    requires '\r' !in boundary
    requires Clean(boundary, preamble) && EpilogueFits(boundary, epilogue)
    requires AllClean(boundary, parts) && "" !in parts
    ensures NonEmpty(Pieces(Delimiter(boundary), Body(boundary, preamble, parts, epilogue), 0))
         == (if preamble == "" then [] else [preamble]) + parts + if epilogue == "" then [] else [epilogue]
  {
    hide OccursAt, Prefix, Pieces, Contains, Tail, Delimiter;
    PiecesOfBody("", preamble, boundary, parts, epilogue);
    var body := Body(boundary, preamble, parts, epilogue);
    assert "" + body == body;
    var all := [preamble] + parts + [epilogue];
    assert all[1..] == parts + [epilogue];
    NonEmptyOfAll(parts, epilogue);
  }

  lemma NothingInLineBreak(boundary: string)
    ensures EpilogueFits(boundary, "") && Clean(boundary, "")
  {
  }

  /**
   * A body that starts right with the boundary line, without a line break before it, as RFC 2046
   * section 5.1.1 allows, does not give its parts back: the first one keeps the boundary line.
   */
  lemma FirstBoundaryNeedsLineBreak(boundary: string, first: string, parts: seq<string>)
    requires '\r' !in boundary
    requires Clean(boundary, "--" + boundary + "\r\n" + first)
    requires AllClean(boundary, parts) && "" !in parts
    ensures var line := "--" + boundary + "\r\n";
            var body := line + first + Tail(boundary, parts, "");
            && "\r\n" + body == Body(boundary, "", [first] + parts, "")
            && NonEmpty(Pieces(Delimiter(boundary), body, 0)) == [line + first] + parts
            && [line + first] + parts != [first] + parts
  {
    hide Clean, Pieces, NonEmpty;
    var preamble := "--" + boundary + "\r\n" + first;
    NothingInLineBreak(boundary);
    RoundTrip(boundary, preamble, parts, "");
    assert ([first] + parts)[1..] == parts;
    hide Tail;
    assert [preamble] + parts + [] == [preamble] + parts;
    assert ([preamble] + parts)[0] == preamble && ([first] + parts)[0] == first;
    assert |preamble| > |first|;
  }

  // ----- The header -----

  predicate NoSeparators(s: string) {
    forall i :: 0 <= i < |s| ==> !EndsParameter(s[i])
  }

  predicate IsToken(s: string) {
    s != "" && NoSeparators(s)
  }

  predicate IsName(s: string) {
    |s| == |NAME| && forall i :: 0 <= i < |NAME| ==> ToLower(s[i]) == NAME[i]
  }

  /**
   * Any text without a boundary parameter in it, a separator, the parameter name in any case, and
   * a value up to the end or the next separator: that value is the boundary, without a pair of
   * quotes around it. Other parameters may come before and after.
   */
  lemma BoundaryOfHeader(before: string, separator: char, name: string, value: string, more: string)
    requires EndsParameter(separator) && IsName(name) && IsToken(value)
    requires more != "" ==> EndsParameter(more[0])
    requires var header := before + [separator] + name + value + more;
             forall i :: 0 <= i < |before| ==> !ParameterAt(header, i)
    ensures FromHeader(before + [separator] + name + value + more) == Ok(Delimiter(Unquoted(value)))
  {
    var header, n := before + [separator] + name + value + more, |before|;
    ParameterIsThere(before, separator, name, value, more);
    hide ParameterAt, Unquoted, Delimiter;
    var r := FindParameter(header, 0);
    assert r == Some(n);
    assert header[n + |NAME| + 1..] == value + more;
    ValueUpToSeparator(value, more);
  }

  /** A header gives an error exactly when it has no boundary parameter at all. */
  lemma HeaderWithoutBoundary(header: string)
    ensures FromHeader(header).Thrown? <==> forall i: nat :: !ParameterAt(header, i)
  {
    hide ParameterAt;
  }

  lemma ParameterIsThere(before: string, separator: char, name: string, value: string, more: string)
    requires EndsParameter(separator) && IsName(name) && IsToken(value)
    ensures ParameterAt(before + [separator] + name + value + more, |before|)
  {
    var n := |before|;
    var header := before + [separator] + name + value + more;
    hide EndsParameter, ToLower;
    assert header[n] == separator;
    assert header[n + |NAME| + 1] == value[0];
    assert forall j :: 0 <= j < |NAME| ==> header[n + 1 + j] == name[j];
  }

  /** A separator before the last one is followed by a separator, not by the name. */
  lemma NoParameterBefore(mediaType: string, separators: string, rest: string, i: nat)
    requires forall i :: 0 <= i < |mediaType| ==> !EndsParameter(mediaType[i])
    requires forall i :: 0 <= i < |separators| ==> EndsParameter(separators[i])
    requires i < |mediaType + separators| - 1
    ensures !ParameterAt(mediaType + separators + rest, i)
  {
    var header := mediaType + separators + rest;
    if i < |mediaType| {
      assert header[i] == mediaType[i];
    } else {
      assert header[i + 1 + 0] == separators[i + 1 - |mediaType|];
      assert ToLower(header[i + 1 + 0]) != NAME[0];
    }
  }

  lemma {:induction false} ValueUpToSeparator(value: string, more: string)
    requires forall i :: 0 <= i < |value| ==> !EndsParameter(value[i])
    requires more != "" ==> EndsParameter(more[0])
    ensures ParameterValue(value + more) == value
  {
    if value == "" {
      assert value + more == more;
    } else {
      ValueUpToSeparator(value[1..], more);
      assert (value + more)[1..] == value[1..] + more;
    }
  }

  /** The header of a form with the given spelling of the boundary. */
  function Header(separators: string, value: string): string {
    "multipart/form-data" + separators + NAME + value
  }

  lemma ValueOfHeader(separators: string, value: string)
    requires IsToken(value)
    requires separators != "" && forall i :: 0 <= i < |separators| ==> EndsParameter(separators[i])
    ensures FromHeader(Header(separators, value)) == Ok(Delimiter(Unquoted(value)))
  {
    var mediaType, last := "multipart/form-data", |separators| - 1;
    var before := mediaType + separators[..last];
    var header := Header(separators, value);
    assert before + [separators[last]] + NAME + value + "" == header;
    assert header == mediaType + separators + (NAME + value);
    hide FromHeader, ParameterAt;
    forall i | 0 <= i < |before|
      ensures !ParameterAt(header, i)
    {
      NoParameterBefore(mediaType, separators, NAME + value, i);
    }
    BoundaryOfHeader(before, separators[last], NAME, value, "");
  }

  lemma DelimiterIsInjective(a: string, b: string)
    requires Delimiter(a) == Delimiter(b)
    ensures a == b
  {
    var p, q := Delimiter(a).partMarker, Delimiter(b).partMarker;
    assert a == p[4..|p| - 2] && b == q[4..|q| - 2];
  }

  /** A quoted boundary ends at its first separator, and then the first quote belongs to it. */
  lemma QuotedBoundaryIsCut(separators: string, boundary: string, k: nat)
    requires separators != "" && forall i :: 0 <= i < |separators| ==> EndsParameter(separators[i])
    requires '"' !in boundary && k < |boundary|
    requires EndsParameter(boundary[k]) && NoSeparators(boundary[..k])
    ensures FromHeader(Header(separators, "\"" + boundary + "\"")) ==
            Ok(Delimiter(if k == 0 then "" else "\"" + boundary[..k]))
  {
    var mediaType, last := "multipart/form-data", |separators| - 1;
    var before := mediaType + separators[..last];
    var value, more := "\"" + boundary[..k], boundary[k..] + "\"";
    var header := Header(separators, "\"" + boundary + "\"");
    assert value + more == "\"" + boundary + "\"";
    assert before + [separators[last]] + NAME + value + more == header;
    assert header == mediaType + separators + (NAME + (value + more));
    assert IsToken(value);
    assert k > 0 ==> value[|value| - 1] == boundary[k - 1];
    assert Unquoted(value) == if k == 0 then "" else value;
    hide FromHeader, ParameterAt, Header;
    forall i | 0 <= i < |before|
      ensures !ParameterAt(header, i)
    {
      NoParameterBefore(mediaType, separators, NAME + (value + more), i);
    }
    BoundaryOfHeader(before, separators[last], NAME, value, more);
  }

  function FirstSeparator(s: string): (k: nat)
    ensures k <= |s| && NoSeparators(s[..k])
    ensures k < |s| ==> EndsParameter(s[k])
  {
    if s == "" || EndsParameter(s[0]) then 0
    else
      var k := 1 + FirstSeparator(s[1..]);
      assert forall i :: 0 < i < k ==> s[i] == s[1..][i - 1];
      k
  }

  /** Quotes protect a boundary exactly when it needs no protection: when it has no separator. */
  lemma QuotedBoundaryIsExact(separators: string, boundary: string)
    requires separators != "" && forall i :: 0 <= i < |separators| ==> EndsParameter(separators[i])
    requires '"' !in boundary
    ensures FromHeader(Header(separators, "\"" + boundary + "\"")) == Ok(Delimiter(boundary)) <==>
            NoSeparators(boundary)
  {
    var quoted, k := "\"" + boundary + "\"", FirstSeparator(boundary);
    assert quoted[1..|quoted| - 1] == boundary;
    hide FromHeader, Header, Delimiter;
    if k == |boundary| {
      assert boundary[..k] == boundary;
      assert IsToken(quoted);
      ValueOfHeader(separators, quoted);
    } else {
      QuotedBoundaryIsCut(separators, boundary, k);
      var cut := if k == 0 then "" else "\"" + boundary[..k];
      assert k > 0 ==> cut[0] == '"';
      if Delimiter(cut) == Delimiter(boundary) {
        DelimiterIsInjective(cut, boundary);
      }
    }
  }

  /** The boundary `a b`, which RFC 2046 allows and which must be quoted, is read as `"a`. */
  lemma QuotedSpaceIsCut()
    ensures FromHeader(Header("; ", "\"" + "a b" + "\"")) == Ok(Delimiter("\"" + "a"))
  {
    hide FromHeader, Header, Delimiter;
    QuotedBoundaryIsCut("; ", "a b", 1);
    assert "a b"[..1] == "a";
  }

  /**
   * The whole example. A body is split into the parts that were printed; the delimiter for it is
   * found in a plain header for every token that does not start with a quote, and in a quoted
   * one for every token, and exactly for the boundaries without separators.
   */
  lemma FormRoundTrip(boundary: string, separators: string, parts: seq<string>)
    requires '\r' !in boundary
    requires separators != "" && forall i :: 0 <= i < |separators| ==> EndsParameter(separators[i])
    requires AllClean(boundary, parts) && "" !in parts
    ensures var d := Delimiter(boundary);
            && NonEmpty(Pieces(d, Body(boundary, "", parts, ""), 0)) == parts
            && (IsToken(boundary) && boundary[0] != '"' ==>
                  FromHeader(Header(separators, boundary)) == Ok(d))
            && (IsToken(boundary) ==> FromHeader(Header(separators, "\"" + boundary + "\"")) == Ok(d))
            && ('"' !in boundary ==>
                  (FromHeader(Header(separators, "\"" + boundary + "\"")) == Ok(d) <==>
                     NoSeparators(boundary)))
  {
    var quoted := "\"" + boundary + "\"";
    assert quoted[1..|quoted| - 1] == boundary;
    hide Clean, Pieces, NonEmpty, Body, Delimiter, FromHeader, Header, EndsParameter, EpilogueFits;
    if IsToken(boundary) {
      QuotedToken(boundary);
      ValueOfHeader(separators, boundary);
      ValueOfHeader(separators, quoted);
    }
    if '"' !in boundary {
      QuotedBoundaryIsExact(separators, boundary);
    }
    NothingInLineBreak(boundary);
    RoundTrip(boundary, "", parts, "");
    assert [] + parts + [] == parts;
  }

  lemma QuotedToken(boundary: string)
    requires IsToken(boundary)
    ensures IsToken("\"" + boundary + "\"")
  {
  }

  // ----- Characters -----

  /** `[;[:space:]]` is a semicolon, a space, a tab, a line feed, or one of the next three. */
  lemma SeparatorsAre(c: char)
    ensures EndsParameter(c) <==>
            c == ';' || c == ' ' || c == '\t' || c == '\n' || c == '\r'
            || c as int == 11 || c as int == 12
  {
  }

  /** The name of the parameter is recognised in any case, letter by letter. */
  lemma NameInAnyCase(s: string)
    ensures IsName(s) <==>
            && |s| == |"boundary="|
            && forall i :: 0 <= i < |s| ==>
                 || s[i] == "boundary="[i]
                 || ("boundary="[i] != '=' && s[i] as int + 32 == "boundary="[i] as int)
  {
    assert forall i :: 0 <= i < |NAME| ==> NAME[i] == '=' || 'a' <= NAME[i] <= 'z';
    if |s| == |NAME| {
      forall i | 0 <= i < |NAME|
        ensures ToLower(s[i]) == NAME[i] <==>
                || s[i] == NAME[i] || (NAME[i] != '=' && s[i] as int + 32 == NAME[i] as int)
      {
      }
    }
  }
}
