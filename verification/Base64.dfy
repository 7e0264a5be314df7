/**
 * Base64 decoding. `Base64Decode` has the control flow of the original: one self-call after
 * padding, a count of trailing `=`, the 6-to-8-bit regrouping, and a loop that pops one byte
 * per `=`. The RFC 4648 section 4 encoder is the reference. A byte is a `char` below 256.
 */
module Base64 {
  import opened Wrappers

  type Sextet = v: nat | v < 64
  type Octet = v: nat | v < 256

  predicate IsSymbol(c: char) {
    'A' <= c <= 'Z' || 'a' <= c <= 'z' || '0' <= c <= '9' || c == '+' || c == '/'
  }

  /** The iterator's table: the alphabet of RFC 4648 section 4, and `=` read as zero. */
  predicate IsReadable(c: char) {
    IsSymbol(c) || c == '='
  }

  function Value(c: char): (v: Sextet)
    requires IsReadable(c)
  {
    if 'A' <= c <= 'Z' then c as int - 65
    else if 'a' <= c <= 'z' then c as int - 71
    else if '0' <= c <= '9' then c as int + 4
    else if c == '+' then 62
    else if c == '/' then 63
    else 0
  }

  function Symbol(v: Sextet): (c: char)
    ensures IsSymbol(c) && Value(c) == v
  {
    if v < 26 then (v + 65) as char
    else if v < 52 then (v + 71) as char
    else if v < 62 then (v - 4) as char
    else if v == 62 then '+'
    else '/'
  }

  lemma SymbolOfValue(c: char)
    requires IsSymbol(c)
    ensures Symbol(Value(c)) == c
  {
    assert Symbol(Value(c)) as int == c as int;
  }

  predicate IsBytes(s: string) {
    forall i :: 0 <= i < |s| ==> s[i] as int < 256
  }

  function Octets(s: string): (r: seq<Octet>)
    requires IsBytes(s)
    ensures |r| == |s| && forall i :: 0 <= i < |s| ==> r[i] as char == s[i]
  {
    seq(|s|, i requires 0 <= i < |s| => s[i] as int)
  }

  function Bytes(r: seq<Octet>): (s: string)
    ensures |r| == |s| && IsBytes(s) && forall i :: 0 <= i < |s| ==> s[i] == r[i] as char
  {
    seq(|r|, i requires 0 <= i < |r| => r[i] as char)
  }

  predicate Readable(s: string) {
    forall i :: 0 <= i < |s| ==> IsReadable(s[i])
  }

  function Values(s: string): (r: seq<Sextet>)
    requires Readable(s)
    ensures |r| == |s| && forall i :: 0 <= i < |s| ==> r[i] == Value(s[i])
  {
    seq(|s|, i requires 0 <= i < |s| => Value(s[i]))
  }

  function Symbols(r: seq<Sextet>): (s: string)
    ensures |r| == |s| && forall i :: 0 <= i < |s| ==> s[i] == Symbol(r[i])
  {
    seq(|r|, i requires 0 <= i < |r| => Symbol(r[i]))
  }

  /** Four 6-bit groups as three bytes. */
  function Regroup4(a: Sextet, b: Sextet, c: Sextet, d: Sextet): (r: seq<Octet>)
    ensures |r| == 3
  {
    [a * 4 + b / 16, b % 16 * 16 + c / 4, c % 4 * 64 + d]
  }

  /** The first `n` times four 6-bit groups as `n` times three bytes. */
  function Regroup(g: seq<Sextet>, n: nat): (r: seq<Octet>)
    requires 4 * n <= |g|
    ensures |r| == 3 * n
  {
    if n == 0 then []
    else
      var i := 4 * n - 4;
      Regroup(g, n - 1) + Regroup4(g[i], g[i + 1], g[i + 2], g[i + 3])
  }

  /** The number of `=` at the end. */
  function TrailingPads(s: string): (k: nat)
    ensures k <= |s|
    ensures forall i :: |s| - k <= i < |s| ==> s[i] == '='
    ensures k < |s| ==> s[|s| - k - 1] != '='
  {
    PadsBefore(s, |s|)
  }

  function PadsBefore(s: string, n: nat): (k: nat)
    requires n <= |s|
    ensures k <= n
    ensures forall i :: n - k <= i < n ==> s[i] == '='
    ensures k < n ==> s[n - k - 1] != '='
  {
    if n == 0 || s[n - 1] != '=' then 0 else 1 + PadsBefore(s, n - 1)
  }

  lemma TrailingPadsAre(s: string, k: nat)
    requires k <= |s|
    requires forall i :: |s| - k <= i < |s| ==> s[i] == '='
    requires k < |s| ==> s[|s| - k - 1] != '='
    ensures TrailingPads(s) == k
  {
  }

  function Pads(k: nat): (s: string)
    ensures |s| == k && forall i :: 0 <= i < k ==> s[i] == '='
  {
    seq(k, _ => '=')
  }

  /** The number of groups of four that hold a text of this length. */
  function Quads(length: nat): (n: nat)
    ensures length <= 4 * n < length + 4
  {
    (length + 3) / 4
  }

  /** The text completed with `=` to full groups of four. */
  function Padded(s: string): (p: string)
    ensures |p| == 4 * Quads(|s|)
    ensures |s| == 4 * Quads(|s|) ==> p == s
  {
    s + Pads(4 * Quads(|s|) - |s|)
  }

  /** The text of the iterator's error; it is a constant. */
  const UNREADABLE := "attempt to decode a value not in base64 char set"

  function Invalid(s: string): string {
    "Invalid base64 string <" + s + ">"
  }

  /** What `n` full groups decode to. */
  function DecodedFull(p: string, n: nat): (r: Result<string>)
    requires |p| == 4 * n
    ensures r.Ok? ==> IsBytes(r.value) && |r.value| == 3 * n - TrailingPads(p)
  {
    if TrailingPads(p) <= 2 && Readable(p) then
      var data := Bytes(Regroup(Values(p), n));
      Ok(data[..|data| - TrailingPads(p)])
    else if TrailingPads(p) > 2 then Thrown(Invalid(p))
    else Thrown(UNREADABLE)
  }

  function Decoded(s: string): (r: Result<string>)
    ensures r.Ok? ==> IsBytes(r.value)
  {
    DecodedFull(Padded(s), Quads(|s|))
  }

  lemma FullGroups(s: string)
    ensures |s| % 4 == 0 <==> |s| == 4 * Quads(|s|)
    ensures (4 - |s| % 4) % 4 == 4 * Quads(|s|) - |s|
  {
  }

  method Base64Decode(base64: string) returns (r: Result<string>)
    ensures r == Decoded(base64)
    decreases if |base64| % 4 == 0 then 0 else 1
  {
    hide Regroup, Readable, Values, Bytes, TrailingPads, Quads;
    FullGroups(base64);
    if |base64| % 4 != 0 {
      var padded := base64;
      padded := padded + Pads((4 - |padded| % 4) % 4);
      assert padded == Padded(base64);
      FullGroups(padded);
      r := Base64Decode(padded);
      return;
    }
    var padCount := TrailingPads(base64);
    if padCount > 2 {
      return Thrown(Invalid(base64));
    }
    if !Readable(base64) {
      return Thrown(UNREADABLE);
    }
    var data := Bytes(Regroup(Values(base64), Quads(|base64|)));
    ghost var all := data;
    while padCount != 0
      invariant 0 <= padCount <= TrailingPads(base64) <= |all|
      invariant data == all[..|all| - (TrailingPads(base64) - padCount)]
    {
      data := data[..|data| - 1];
      padCount := padCount - 1;
    }
    return Ok(data);
  }

  // ----- The reference encoder, RFC 4648 section 4 -----

  /** Three bytes as four 6-bit groups. */
  function Groups3(x: Octet, y: Octet, z: Octet): (r: seq<Sextet>)
    ensures |r| == 4
  {
    [x / 4, x % 4 * 16 + y / 16, y % 16 * 4 + z / 64, z % 64]
  }

  /** The first `n` times three bytes as `n` times four 6-bit groups. */
  function Groups(b: seq<Octet>, n: nat): (r: seq<Sextet>)
    requires 3 * n <= |b|
    ensures |r| == 4 * n
  {
    if n == 0 then []
    else
      var i := 3 * n - 3;
      Groups(b, n - 1) + Groups3(b[i], b[i + 1], b[i + 2])
  }

  function Zeros(k: nat): (r: seq<Octet>)
    ensures |r| == k && forall i :: 0 <= i < k ==> r[i] == 0
  {
    seq(k, _ => 0)
  }

  /** The number of groups of three that hold this many bytes. */
  function Triples(length: nat): (n: nat)
    ensures length <= 3 * n < length + 3
  {
    (length + 2) / 3
  }

  /** Zero bytes complete the last group of three, and as many `=` replace their symbols. */
  function Encoded(b: string): (s: string)
    requires IsBytes(b)
    ensures |s| == 4 * Triples(|b|)
  {
    var n := Triples(|b|);
    var k := 3 * n - |b|;
    var g := Groups(Octets(b) + Zeros(k), n);
    Symbols(g[..4 * n - k]) + Pads(k)
  }

  /**
   * RFC 4648 section 3.5: full groups of symbols, at most two `=`, all of them at the end, and
   * zero in the bits that the last symbol does not need.
   */
  predicate Canonical(s: string) {
    var k := TrailingPads(s);
    && |s| == 4 * Quads(|s|)
    && k <= 2
    && (forall i :: 0 <= i < |s| - k ==> IsSymbol(s[i]))
    && (k == 1 ==> Value(s[|s| - 2]) % 4 == 0)
    && (k == 2 ==> Value(s[|s| - 3]) % 16 == 0)
  }

  // ----- The two regroupings are inverse -----

  lemma Regroup4OfGroups3(x: Octet, y: Octet, z: Octet)
    ensures var g := Groups3(x, y, z); Regroup4(g[0], g[1], g[2], g[3]) == [x, y, z]
  {
  }

  lemma Groups3OfRegroup4(a: Sextet, b: Sextet, c: Sextet, d: Sextet)
    ensures var r := Regroup4(a, b, c, d); Groups3(r[0], r[1], r[2]) == [a, b, c, d]
  {
    assert (a * 4 + b / 16) / 4 == a && (a * 4 + b / 16) % 4 == b / 16;
    assert (b % 16 * 16 + c / 4) / 16 == b % 16 && (b % 16 * 16 + c / 4) % 16 == c / 4;
    assert (c % 4 * 64 + d) / 64 == c % 4 && (c % 4 * 64 + d) % 64 == d;
  }

  lemma RegroupOfPrefix(g: seq<Sextet>, more: seq<Sextet>, n: nat)
    requires 4 * n <= |g|
    ensures Regroup(g + more, n) == Regroup(g, n)
  {
  }

  lemma GroupsOfPrefix(b: seq<Octet>, more: seq<Octet>, n: nat)
    requires 3 * n <= |b|
    ensures Groups(b + more, n) == Groups(b, n)
  {
  }

  lemma {:induction false} RegroupOfGroups(b: seq<Octet>, n: nat)
    requires 3 * n <= |b|
    ensures Regroup(Groups(b, n), n) == b[..3 * n]
  {
    hide Regroup4, Groups3;
    if n > 0 {
      var i := 3 * n - 3;
      var last := Groups3(b[i], b[i + 1], b[i + 2]);
      RegroupOfGroups(b, n - 1);
      RegroupOfPrefix(Groups(b, n - 1), last, n - 1);
      Regroup4OfGroups3(b[i], b[i + 1], b[i + 2]);
    }
  }

  lemma {:induction false} GroupsOfRegroup(g: seq<Sextet>, n: nat)
    requires 4 * n <= |g|
    ensures Groups(Regroup(g, n), n) == g[..4 * n]
  {
    hide Regroup4, Groups3;
    if n > 0 {
      var i := 4 * n - 4;
      var last := Regroup4(g[i], g[i + 1], g[i + 2], g[i + 3]);
      GroupsOfRegroup(g, n - 1);
      GroupsOfPrefix(Regroup(g, n - 1), last, n - 1);
      Groups3OfRegroup4(g[i], g[i + 1], g[i + 2], g[i + 3]);
    }
  }

  // ----- The main results -----

  /** The last groups of zero-filled bytes are zero, and so are the unused bits before them. */
  lemma GroupsOfZeroFilled(b: seq<Octet>, k: nat, n: nat)
    requires k < 3 && |b| + k == 3 * n
    ensures var g := Groups(b + Zeros(k), n);
            && (k >= 1 ==> g[4 * n - 1] == 0)
            && (k == 1 ==> g[4 * n - 2] % 4 == 0)
            && (k == 2 ==> g[4 * n - 2] == 0 && g[4 * n - 3] % 16 == 0)
  {
  }

  /** The other way around: zero groups at the end give zero bytes. */
  lemma RegroupOfZeroFilled(g: seq<Sextet>, k: nat, n: nat)
    requires k < 3 && |g| == 4 * n && n > 0
    requires k >= 1 ==> g[4 * n - 1] == 0
    requires k == 1 ==> g[4 * n - 2] % 4 == 0
    requires k == 2 ==> g[4 * n - 2] == 0 && g[4 * n - 3] % 16 == 0
    ensures Regroup(g, n) == Regroup(g, n)[..3 * n - k] + Zeros(k)
  {
  }

  lemma PadIsZero()
    ensures Value('=') == 0 && !IsSymbol('=')
  {
  }

  /** The symbols of an encoding carry the groups of the zero-filled bytes. */
  lemma ValuesOfSymbols(g: seq<Sextet>, k: nat)
    requires k <= |g|
    requires forall i :: |g| - k <= i < |g| ==> g[i] == 0
    ensures var s := Symbols(g[..|g| - k]) + Pads(k);
            && (forall i :: 0 <= i < |g| - k ==> IsSymbol(s[i]))
            && TrailingPads(s) == k
            && Readable(s)
            && Values(s) == g
  {
    hide Value, Symbol, IsSymbol;
    PadIsZero();
    var s := Symbols(g[..|g| - k]) + Pads(k);
    assert forall i :: 0 <= i < |g| - k ==> s[i] == Symbol(g[i]);
    TrailingPadsAre(s, k);
  }

  lemma ValuesOfEncoded(b: string)
    requires IsBytes(b)
    ensures var s, n := Encoded(b), Triples(|b|);
            && Readable(s)
            && TrailingPads(s) == 3 * n - |b|
            && Values(s) == Groups(Octets(b) + Zeros(3 * n - |b|), n)
            && forall i :: 0 <= i < |s| - TrailingPads(s) ==> IsSymbol(s[i])
  {
    hide Groups, Value, Symbol, IsSymbol, PadsBefore;
    var n := Triples(|b|);
    var k := 3 * n - |b|;
    GroupsOfZeroFilled(Octets(b), k, n);
    ValuesOfSymbols(Groups(Octets(b) + Zeros(k), n), k);
  }

  lemma EncodedIsCanonical(b: string)
    requires IsBytes(b)
    ensures Canonical(Encoded(b))
  {
    hide Groups, Value, Symbol, IsSymbol, TrailingPads, Encoded;
    var s, n := Encoded(b), Triples(|b|);
    ValuesOfEncoded(b);
    GroupsOfZeroFilled(Octets(b), 3 * n - |b|, n);
    assert Quads(|s|) == n;
    assert n > 0 ==> Value(s[|s| - 2]) == Values(s)[4 * n - 2] && Value(s[|s| - 3]) == Values(s)[4 * n - 3];
  }

  lemma RoundTripFull(b: string)
    requires IsBytes(b)
    ensures DecodedFull(Encoded(b), Triples(|b|)) == Ok(b)
  {
    hide Regroup, Groups, Value, Symbol;
    var n := Triples(|b|);
    var filled := Octets(b) + Zeros(3 * n - |b|);
    ValuesOfEncoded(b);
    RegroupOfGroups(filled, n);
    assert filled[..3 * n] == filled;
    assert Bytes(filled)[..|b|] == b;
  }

  /** Round trip: any number of the encoding's own trailing `=` may be missing. */
  lemma RoundTrip(b: string, dropped: nat)
    requires IsBytes(b)
    requires dropped <= TrailingPads(Encoded(b))
    ensures Decoded(Encoded(b)[..|Encoded(b)| - dropped]) == Ok(b)
  {
    hide Regroup, Groups, Value, Symbol, Encoded, DecodedFull, Padded, TrailingPads, Triples, Quads;
    var s := Encoded(b);
    ValuesOfEncoded(b);
    RoundTripFull(b);
    PaddingIsRestored(s, Triples(|b|), dropped);
  }

  lemma PaddingIsRestored(s: string, n: nat, dropped: nat)
    requires |s| == 4 * n && dropped <= TrailingPads(s) && dropped < 4
    ensures Padded(s[..|s| - dropped]) == s && Quads(|s| - dropped) == n
  {
    hide TrailingPads;
    var t := s[..|s| - dropped];
    assert Quads(|t|) == n;
    assert s == t + s[|s| - dropped..];
    assert s[|s| - dropped..] == Pads(dropped);
  }

  lemma SymbolsOfValues(s: string, m: nat)
    requires Readable(s) && m <= |s|
    requires forall i :: 0 <= i < m ==> IsSymbol(s[i])
    requires forall i :: m <= i < |s| ==> s[i] == '='
    ensures Symbols(Values(s)[..m]) + Pads(|s| - m) == s
  {
    forall i | 0 <= i < m ensures Symbol(Values(s)[i]) == s[i] {
      SymbolOfValue(s[i]);
    }
  }

  lemma EncodedOfFilled(data: seq<Octet>, k: nat, n: nat)
    requires k < 3 && |data| + k == 3 * n
    ensures Encoded(Bytes(data)) == Symbols(Groups(data + Zeros(k), n)[..4 * n - k]) + Pads(k)
  {
    hide Groups;
    assert Octets(Bytes(data)) == data;
    assert Triples(|data|) == n;
  }

  /** The groups of a canonical text end in as many zeros as its `=` and unused bits demand. */
  lemma GroupsOfCanonical(s: string, n: nat)
    requires Canonical(s) && |s| == 4 * n && n > 0
    ensures Readable(s)
    ensures var g, k := Values(s), TrailingPads(s);
            Regroup(g, n) == Regroup(g, n)[..3 * n - k] + Zeros(k)
  {
    hide Regroup, PadsBefore;
    assert Readable(s);
    PadIsZero();
    RegroupOfZeroFilled(Values(s), TrailingPads(s), n);
  }

  lemma EncodedOfDecoded(s: string, n: nat)
    requires Canonical(s) && |s| == 4 * n
    ensures DecodedFull(s, n).Ok? && Encoded(DecodedFull(s, n).value) == s
  {
    hide Regroup, Groups, Symbol, Value, PadsBefore;
    assert DecodedFull(s, n).Ok?;
    if n > 0 {
      var k, g := TrailingPads(s), Values(s);
      GroupsOfCanonical(s, n);
      GroupsOfRegroup(g, n);
      SymbolsOfValues(s, 4 * n - k);
      var r := Regroup(g, n);
      EncodedOfFilled(r[..3 * n - k], k, n);
      assert Bytes(r)[..3 * n - k] == Bytes(r[..3 * n - k]);
    }
  }

  /**
   * Encoding what was decoded gives the text back exactly for the canonical texts: the decoder
   * also accepts missing padding, an inner `=`, and nonzero unused bits.
   */
  lemma EncodeAfterDecode(s: string)
    ensures Canonical(s) <==> Decoded(s).Ok? && Encoded(Decoded(s).value) == s
  {
    if Canonical(s) {
      EncodedOfDecoded(s, Quads(|s|));
    } else if Decoded(s).Ok? {
      EncodedIsCanonical(Decoded(s).value);
    }
  }

  /** What makes the decoder throw, for any text at all, and how many bytes it returns. */
  lemma AcceptanceOfAnyText(s: string)
    ensures var missing := 4 * Quads(|s|) - |s|;
            && (Decoded(s).Ok? <==> Readable(s) && TrailingPads(s) + missing <= 2)
            && (Decoded(s).Ok? ==> |Decoded(s).value| == 3 * Quads(|s|) - TrailingPads(s) - missing)
  {
    var p, k := Padded(s), TrailingPads(s);
    assert forall i :: 0 <= i < |s| ==> s[i] == p[i];
    TrailingPadsAre(p, k + 4 * Quads(|s|) - |s|);
  }

  lemma AcceptanceArithmetic(m: nat, k: nat, n: nat)
    requires m + k <= 4 * n < m + k + 4
    ensures k + (4 * n - m - k) <= 2 <==>
            || (m % 4 == 0 && k == 0)
            || (m % 4 == 2 && k <= 2)
            || (m % 4 == 3 && k <= 1)
    ensures k + (4 * n - m - k) <= 2 ==> 3 * n - k - (4 * n - m - k) == 3 * m / 4
  {
  }

  /** Which texts made of symbols followed by `=` decode, and to how many bytes. */
  lemma Acceptance(body: string, k: nat)
    requires forall i :: 0 <= i < |body| ==> IsSymbol(body[i])
    ensures Decoded(body + Pads(k)).Ok? <==>
            || (|body| % 4 == 0 && k == 0)
            || (|body| % 4 == 2 && k <= 2)
            || (|body| % 4 == 3 && k <= 1)
    ensures Decoded(body + Pads(k)).Ok? ==> |Decoded(body + Pads(k)).value| == 3 * |body| / 4
  {
    var s := body + Pads(k);
    TrailingPadsAre(s, k);
    assert Readable(s);
    AcceptanceOfAnyText(s);
    AcceptanceArithmetic(|body|, k, Quads(|s|));
  }

  // ----- The alphabet and the order of bits -----

  /** The alphabet of RFC 4648: letters, digits, `+` and `/`, in this order. */
  lemma AlphabetInOrder(c: char)
    requires IsSymbol(c)
    ensures Value('A') == 0 && Value('Z') == 25 && Value('a') == 26 && Value('z') == 51
    ensures Value('0') == 52 && Value('9') == 61 && Value('+') == 62 && Value('/') == 63
    ensures c !in "Zz9+/" ==>
              var next := (c as int + 1) as char; IsSymbol(next) && Value(next) == Value(c) + 1
  {
  }

  /** Four groups of six bits and three bytes are the same number, the first one highest. */
  lemma GroupsAreOneNumber(a: Sextet, b: Sextet, c: Sextet, d: Sextet)
    ensures var r := Regroup4(a, b, c, d);
            ((a as int * 64 + b as int) * 64 + c as int) * 64 + d as int ==
            (r[0] as int * 256 + r[1] as int) * 256 + r[2] as int
  {
  }
}
