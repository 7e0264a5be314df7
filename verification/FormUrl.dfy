/**
 * The `application/x-www-form-urlencoded` parser of the HTTP content example. The reference is
 * the reading of RFC 3986 section 2.1: a text is a sequence of pieces, each a literal character
 * or an escape `%hh`. A character stands for a byte; `char` is signed, as on x86-64.
 */
module FormUrl {
  import opened Wrappers
  import opened Text

  // ----- Percent decoding -----

  predicate IsHex(c: char) {
    '0' <= c <= '9' || 'a' <= c <= 'f' || 'A' <= c <= 'F'
  }

  function HexValue(c: char): (v: nat)
    requires IsHex(c)
    ensures v < 16
  {
    if c <= '9' then c as int - 48
    else if c <= 'F' then c as int - 55
    else c as int - 87
  }

  /**
   * `std::from_chars` into a signed `char`, base 16, on exactly the two characters given:
   * a value above 127 does not fit, and a minus sign is accepted.
   */
  function FromChars(a: char, b: char): Option<char> {
    if IsHex(a) && IsHex(b) then
      var v := 16 * HexValue(a) + HexValue(b);
      if v <= 127 then Some(v as char) else None
    else if a == '-' && IsHex(b) then
      Some(((256 - HexValue(b)) % 256) as char)
    else None
  }

  /** Both cases of the hexadecimal digits, in order from 0 to 15. */
  lemma HexDigitsInOrder(c: char)
    requires IsHex(c)
    ensures HexValue('0') == 0 && HexValue('a') == 10 && HexValue('A') == 10
    ensures c != '9' && c != 'f' && c != 'F' ==>
              var next := (c as int + 1) as char; IsHex(next) && HexValue(next) == HexValue(c) + 1
    ensures IsHex(c) <==> c in "0123456789abcdefABCDEF"
  {
  }

  /** A minus sign with one digit is read as a negative `char`, which as a byte is its complement. */
  lemma SignIsRead(digit: char)
    requires IsHex(digit)
    ensures FromChars('-', digit).Some?
    ensures FromChars('-', digit).value as int < 256
    ensures digit != '0' ==> FromChars('-', digit).value as int + HexValue(digit) == 256
    ensures digit == '0' ==> FromChars('-', digit).value as int == 0
  {
  }

  /** What decoding `s` from its first character on appends to the result. */
  function Decode(s: string): (r: string)
    ensures |r| <= |s|
  {
    if s == "" then ""
    else if s[0] != '%' then [s[0]] + Decode(s[1..])
    else if |s| < 3 then Decode(s[1..])
    else
      match FromChars(s[1], s[2])
      case Some(c) => [c] + Decode(s[3..])
      case None => ['%'] + Decode(s[1..])
  }

  /** One round of the loop at `s[i]`: what it appends, and how far it goes. */
  lemma DecodeStep(s: string, i: nat)
    requires i < |s|
    ensures Decode(s[i..]) ==
            if s[i] != '%' then [s[i]] + Decode(s[i + 1..])
            else if |s| < i + 3 then Decode(s[i + 1..])
            else match FromChars(s[i + 1], s[i + 2])
                 case Some(c) => [c] + Decode(s[i + 3..])
                 case None => ['%'] + Decode(s[i + 1..])
  {
    var t := s[i..];
    assert t[1..] == s[i + 1..];
    assert |t| >= 3 ==> t[3..] == s[i + 3..] && t[1] == s[i + 1] && t[2] == s[i + 2];
  }

  method UrlDecode(encoded: string) returns (result: string)
    ensures result == Decode(encoded)
  {
    hide Decode, FromChars;
    result := "";
    var i := 0;
    assert encoded[0..] == encoded;
    while i != |encoded|
      invariant 0 <= i <= |encoded|
      invariant result + Decode(encoded[i..]) == Decode(encoded)
    {
      DecodeStep(encoded, i);
      if encoded[i] != '%' {
        MoveOver(result, encoded[i], Decode(encoded[i + 1..]));
        result := result + [encoded[i]];
        i := i + 1;
        continue;
      }
      if i + 3 <= |encoded| {
        var value := FromChars(encoded[i + 1], encoded[i + 2]);
        if value.Some? {
          MoveOver(result, value.value, Decode(encoded[i + 3..]));
          result := result + [value.value];
          i := i + 2;
        } else {
          MoveOver(result, encoded[i], Decode(encoded[i + 1..]));
          result := result + [encoded[i]];
        }
      }
      i := i + 1;
    }
    DecodeNothing();
  }

  lemma DecodeNothing()
    ensures Decode("") == ""
  {
  }

  /** A text as RFC 3986 reads it. */
  datatype Piece = Literal(c: char) | Escape(high: char, low: char)

  predicate WellFormed(p: Piece) {
    match p
    case Literal(c) => c != '%'
    case Escape(high, low) => IsHex(high) && IsHex(low)
  }

  predicate AllWellFormed(ps: seq<Piece>) {
    forall i :: 0 <= i < |ps| ==> WellFormed(ps[i])
  }

  /** The escape denotes a byte below 0x80. */
  predicate IsAscii(p: Piece) {
    p.Escape? && IsHex(p.high) && IsHex(p.low) ==> 16 * HexValue(p.high) + HexValue(p.low) < 128
  }

  predicate AllAscii(ps: seq<Piece>) {
    forall i :: 0 <= i < |ps| ==> IsAscii(ps[i])
  }

  function PieceText(p: Piece): string {
    match p
    case Literal(c) => [c]
    case Escape(high, low) => ['%', high, low]
  }

  function Render(ps: seq<Piece>): string {
    if ps == [] then "" else PieceText(ps[0]) + Render(ps[1..])
  }

  function PieceMeaning(p: Piece): char
    requires WellFormed(p)
  {
    match p
    case Literal(c) => c
    case Escape(high, low) => (16 * HexValue(high) + HexValue(low)) as char
  }

  function Meaning(ps: seq<Piece>): (r: string)
    requires AllWellFormed(ps)
    ensures |r| == |ps| && forall i :: 0 <= i < |ps| ==> r[i] == PieceMeaning(ps[i])
  {
    seq(|ps|, i requires 0 <= i < |ps| => PieceMeaning(ps[i]))
  }

  /** How the decoder reads one piece: a high escape stays as its three characters. */
  lemma DecodePiece(p: Piece, rest: string)
    requires WellFormed(p)
    ensures Decode(PieceText(p) + rest)
         == (if IsAscii(p) then [PieceMeaning(p)] else PieceText(p)) + Decode(rest)
  {
    var s := PieceText(p) + rest;
    match p
    case Literal(c) =>
      assert s[1..] == rest;
    case Escape(high, low) =>
      assert s[3..] == rest;
      if !IsAscii(p) {
        var s1 := [high, low] + rest;
        var s2 := [low] + rest;
        assert s[1..] == s1 && s1[1..] == s2 && s2[1..] == rest;
        assert Decode(s) == ['%'] + Decode(s1);
        assert Decode(s1) == [high] + Decode(s2);
        assert Decode(s2) == [low] + Decode(rest);
      }
  }

  function HighEscapes(ps: seq<Piece>): nat {
    if ps == [] then 0 else (if IsAscii(ps[0]) then 0 else 1) + HighEscapes(ps[1..])
  }

  lemma {:induction false} HighEscapesCount(ps: seq<Piece>)
    ensures HighEscapes(ps) == 0 <==> AllAscii(ps)
  {
    if ps != [] {
      HighEscapesCount(ps[1..]);
      assert forall i :: 0 < i < |ps| ==> ps[i] == ps[1..][i - 1];
    }
  }

  /** Each high escape makes the decoded text two characters longer than the meaning. */
  lemma {:induction false} DecodeRendered(ps: seq<Piece>)
    requires AllWellFormed(ps)
    ensures |Decode(Render(ps))| == |ps| + 2 * HighEscapes(ps)
    ensures HighEscapes(ps) == 0 ==> Decode(Render(ps)) == Meaning(ps)
  {
    if ps != [] {
      DecodePiece(ps[0], Render(ps[1..]));
      DecodeRendered(ps[1..]);
      if HighEscapes(ps) == 0 {
        assert Meaning(ps) == [PieceMeaning(ps[0])] + Meaning(ps[1..]);
      }
    }
  }

  /**
   * The decoder inverts an encoder exactly when every escape it wrote denotes a byte below
   * 0x80. `ps` stands for the output of any encoder that escapes at least `%`.
   */
  lemma DecodeInvertsEncoders(ps: seq<Piece>)
    requires AllWellFormed(ps)
    ensures Decode(Render(ps)) == Meaning(ps) <==> AllAscii(ps)
  {
    HighEscapesCount(ps);
    DecodeRendered(ps);
  }

  /** A text without `%` is left alone. */
  lemma {:induction false} DecodeWithoutPercent(s: string)
    requires '%' !in s
    ensures Decode(s) == s
  {
    if s != "" {
      DecodeWithoutPercent(s[1..]);
    }
  }

  // ----- What decoding does to any text -----

  /** A text as the decoder takes it apart: characters, escapes it can read, and other `%`. */
  datatype Token = Plain(c: char) | Coded(a: char, b: char) | Stray

  function TokenText(t: Token): string {
    match t
    case Plain(c) => [c]
    case Coded(a, b) => ['%', a, b]
    case Stray => "%"
  }

  function TokensText(ts: seq<Token>): string {
    if ts == [] then "" else TokenText(ts[0]) + TokensText(ts[1..])
  }

  /** Every escape can be read, and no stray `%` could be the start of one. */
  predicate IsReading(ts: seq<Token>)
    decreases |ts|
  {
    ts == [] ||
    (&& IsReading(ts[1..])
     && var rest := TokensText(ts[1..]);
        match ts[0]
        case Plain(c) => c != '%'
        case Coded(a, b) => FromChars(a, b).Some?
        case Stray => |rest| >= 2 ==> FromChars(rest[0], rest[1]).None?)
  }

  /** A character stays, an escape becomes its byte, a stray `%` stays unless it is near the end. */
  function Kept(t: Token, after: nat): string
    requires t.Coded? ==> FromChars(t.a, t.b).Some?
  {
    match t
    case Plain(c) => [c]
    case Coded(a, b) => [FromChars(a, b).value]
    case Stray => if after < 2 then "" else "%"
  }

  function KeptOfAll(ts: seq<Token>): string
    requires IsReading(ts)
  {
    if ts == [] then "" else Kept(ts[0], |TokensText(ts[1..])|) + KeptOfAll(ts[1..])
  }

  /** Decoding acts token by token; of the others only the length of what follows matters. */
  lemma {:induction false} DecodeIsTokenwise(ts: seq<Token>)
    requires IsReading(ts)
    ensures Decode(TokensText(ts)) == KeptOfAll(ts)
  {
    if ts != [] {
      var s, rest := TokensText(ts), TokensText(ts[1..]);
      DecodeIsTokenwise(ts[1..]);
      match ts[0]
      case Plain(c) => assert s[1..] == rest;
      case Coded(a, b) => assert s[3..] == rest;
      case Stray =>
        assert s[1..] == rest;
        assert |rest| >= 2 ==> s[1] == rest[0] && s[2] == rest[1];
    }
  }

  /** Every text is a reading, so this says what decoding does to any text. */
  lemma {:induction false} EveryTextHasAReading(s: string) returns (ts: seq<Token>)
    ensures IsReading(ts) && TokensText(ts) == s
    decreases |s|
  {
    if s == "" {
      ts := [];
    } else {
      var t := if s[0] != '%' then Plain(s[0])
               else if |s| >= 3 && FromChars(s[1], s[2]).Some? then Coded(s[1], s[2])
               else Stray;
      var n := |TokenText(t)|;
      var rest := EveryTextHasAReading(s[n..]);
      ts := [t] + rest;
      assert ts[1..] == rest;
      assert TokenText(t) == s[..n];
      assert s == s[..n] + s[n..];
    }
  }

  /** A text has one reading only. */
  lemma {:induction false} ReadingIsUnique(ts: seq<Token>, us: seq<Token>)
    requires IsReading(ts) && IsReading(us) && TokensText(ts) == TokensText(us)
    ensures ts == us
  {
    if ts == [] || us == [] {
      assert ts == us;
    } else {
      var s, a, b := TokensText(ts), TokensText(ts[1..]), TokensText(us[1..]);
      SameFirst(ts, us);
      assert a == s[|TokenText(ts[0])|..] && b == s[|TokenText(us[0])|..];
      ReadingIsUnique(ts[1..], us[1..]);
      assert ts == [ts[0]] + ts[1..] && us == [us[0]] + us[1..];
    }
  }

  lemma SameFirst(ts: seq<Token>, us: seq<Token>)
    requires ts != [] && us != [] && IsReading(ts) && IsReading(us)
    requires TokensText(ts) == TokensText(us)
    ensures ts[0] == us[0]
  {
    FirstOfReading(ts);
    FirstOfReading(us);
  }

  lemma FirstOfReading(ts: seq<Token>)
    requires ts != [] && IsReading(ts)
    ensures var s := TokensText(ts);
            && s != ""
            && ts[0] == if s[0] != '%' then Plain(s[0])
                        else if |s| >= 3 && FromChars(s[1], s[2]).Some? then Coded(s[1], s[2])
                        else Stray
  {
    var s, rest := TokensText(ts), TokensText(ts[1..]);
    if ts[0].Stray? {
      assert s[1..] == rest;
      assert |rest| >= 2 ==> s[1] == rest[0] && s[2] == rest[1];
    }
  }

  // ----- Splitting and building the map -----

  /** `std::getline` with `&` until it fails: a separator at the very end adds no token. */
  function Tokens(text: string): seq<string> {
    if text == "" then []
    else
      var p := Find(text, '&');
      if p == |text| then [text] else [text[..p]] + Tokens(text[p + 1..])
  }

  /** A token without `=` is its own value: `p + 1` wraps around to zero. */
  function Binding(token: string): (string, string) {
    var p := Find(token, '=');
    if p == |token| then (Decode(token), Decode(token))
    else (Decode(token[..p]), Decode(token[p + 1..]))
  }

  /** `std::map::emplace` in order: the first binding of a key stays. */
  function FirstBindings(bs: seq<(string, string)>): (m: map<string, string>)
    ensures forall k :: k in m <==> exists i :: 0 <= i < |bs| && bs[i].0 == k
  {
    if bs == [] then map[]
    else
      var m := FirstBindings(bs[..|bs| - 1]);
      var (k, v) := bs[|bs| - 1];
      if k in m then m else m[k := v]
  }

  function Bindings(tokens: seq<string>): (bs: seq<(string, string)>)
    ensures |bs| == |tokens|
    ensures forall i :: 0 <= i < |tokens| ==> bs[i] == Binding(tokens[i])
  {
    seq(|tokens|, i requires 0 <= i < |tokens| => Binding(tokens[i]))
  }

  function Parse(text: string): map<string, string> {
    FirstBindings(Bindings(Tokens(text)))
  }

  lemma TokensStep(rest: string)
    requires rest != ""
    ensures var p := Find(rest, '&');
            Tokens(rest) == [rest[..p]] + Tokens(if p == |rest| then "" else rest[p + 1..])
  {
    assert rest[..|rest|] == rest;
  }

  method SplitTokens(text: string) returns (tokens: seq<string>)
    ensures tokens == Tokens(text)
  {
    hide Tokens, Find;
    tokens := [];
    var rest := text;
    while rest != ""
      invariant tokens + Tokens(rest) == Tokens(text)
      decreases |rest|
    {
      TokensStep(rest);
      var p := Find(rest, '&');
      var tk := rest[..p];
      rest := if p == |rest| then "" else rest[p + 1..];
      MoveOver(tokens, tk, Tokens(rest));
      tokens := tokens + [tk];
    }
    NoTokens();
  }

  lemma NoTokens()
    ensures Tokens("") == []
  {
  }

  lemma NextBinding(tokens: seq<string>, i: nat)
    requires i < |tokens|
    ensures var m, (k, v) := FirstBindings(Bindings(tokens[..i])), Binding(tokens[i]);
            FirstBindings(Bindings(tokens[..i + 1])) == if k in m then m else m[k := v]
  {
    var bs := Bindings(tokens[..i + 1]);
    assert bs[..i] == Bindings(tokens[..i]);
  }

  method ParseWwwFormUrlencoded(text: string) returns (result: map<string, string>)
    ensures result == Parse(text)
    ensures forall ts :: AreTokensOf(ts, text) ==> IsParseOf(result, ts)
  {
    var tokens := SplitTokens(text);
    result := map[];
    for i := 0 to |tokens|
      invariant result == FirstBindings(Bindings(tokens[..i]))
    {
      hide Bindings, Decode, FirstBindings, Find;
      NextBinding(tokens, i);
      var tk := tokens[i];
      var p := Find(tk, '=');
      assert tk[..|tk|] == tk;
      var key := UrlDecode(tk[..p]);
      var value := UrlDecode(if p == |tk| then tk else tk[p + 1..]);
      if key !in result {
        result := result[key := value];
      }
    }
    assert tokens[..|tokens|] == tokens;
    hide IsParseOf, AreTokensOf;
    forall ts | AreTokensOf(ts, text)
      ensures IsParseOf(result, ts)
    {
      ParseIsExact(text, ts);
    }
  }

  // ----- What parsing does to any text -----

  /** The tokens, each with the separator behind it. */
  function Terminated(tokens: seq<string>): string {
    if tokens == [] then "" else tokens[0] + "&" + Terminated(tokens[1..])
  }

  predicate NoSeparatorIn(tokens: seq<string>) {
    forall i :: 0 <= i < |tokens| ==> '&' !in tokens[i]
  }

  /** No token holds a separator, and the last one may lack its own if it is not empty. */
  predicate AreTokensOf(tokens: seq<string>, text: string) {
    && NoSeparatorIn(tokens)
    && (|| Terminated(tokens) == text
        || (tokens != [] && tokens[|tokens| - 1] != "" && Terminated(tokens) == text + "&"))
  }

  /** Splitting a text at its first separator is unambiguous. */
  lemma SplitAtFirst(a: string, x: string, b: string, y: string)
    requires '&' !in a && '&' !in b
    ensures a + "&" + x == b + "&" + y <==> a == b && x == y
  {
    if a + "&" + x == b + "&" + y {
      var s := a + "&" + x;
      assert s[|a|] == '&' && s[|b|] == '&';
      assert forall i :: 0 <= i < |a| ==> s[i] == a[i];
      assert forall i :: 0 <= i < |b| ==> s[i] == b[i];
      assert |a| == |b|;
      assert a == s[..|a|] && b == s[..|b|];
      assert x == s[|a| + 1..] && y == s[|b| + 1..];
    }
  }

  lemma TerminatedFirst(tokens: seq<string>)
    requires tokens != []
    ensures Terminated(tokens) == tokens[0] + "&" + Terminated(tokens[1..])
    ensures NoSeparatorIn(tokens) <==> '&' !in tokens[0] && NoSeparatorIn(tokens[1..])
    ensures Terminated(tokens[1..]) == "" <==> |tokens| == 1
    ensures |tokens| > 1 ==> tokens[|tokens| - 1] == tokens[1..][|tokens| - 2]
  {
  }

  /** A text without a separator is one token. */
  lemma OneTokenOnly(text: string, tokens: seq<string>)
    requires '&' !in text && text != "" && tokens != []
    ensures AreTokensOf(tokens, text) <==> tokens == [text]
  {
    TerminatedFirst(tokens);
    hide Terminated, NoSeparatorIn;
    if NoSeparatorIn(tokens) {
      SplitAtFirst(tokens[0], Terminated(tokens[1..]), text, "");
      assert text + "&" + "" == text + "&";
      assert (tokens[0] + "&" + Terminated(tokens[1..]))[|tokens[0]|] == '&';
    }
    if tokens == [text] {
      NoMoreTokens(text);
    }
  }

  lemma NoMoreTokens(text: string)
    ensures [text][1..] == [] && Terminated([]) == "" && NoSeparatorIn([])
  {
  }

  /** The first token ends at the first separator. */
  lemma FirstTokenOnly(first: string, rest: string, tokens: seq<string>)
    requires '&' !in first && tokens != []
    ensures AreTokensOf(tokens, first + "&" + rest) <==>
            tokens[0] == first && AreTokensOf(tokens[1..], rest)
  {
    TerminatedFirst(tokens);
    hide Terminated, NoSeparatorIn;
    var more := Terminated(tokens[1..]);
    assert first + "&" + rest + "&" == first + "&" + (rest + "&");
    if '&' !in tokens[0] {
      SplitAtFirst(tokens[0], more, first, rest);
      SplitAtFirst(tokens[0], more, first, rest + "&");
    }
  }

  lemma TokensOfNothing(text: string, tokens: seq<string>)
    requires text == "" || tokens == []
    ensures Tokens(text) == tokens <==> AreTokensOf(tokens, text)
  {
    if tokens != [] {
      TerminatedFirst(tokens);
      assert "" + "&" == "&";
      assert |Terminated(tokens)| == |tokens[0]| + 1 + |Terminated(tokens[1..])|;
    } else {
      assert NoSeparatorIn(tokens) && Terminated(tokens) == "";
    }
  }

  /** Every text is split into its tokens, and there is no other way to do so. */
  lemma {:induction false} TokensAreExact(text: string, tokens: seq<string>)
    ensures Tokens(text) == tokens <==> AreTokensOf(tokens, text)
    decreases |text|
  {
    var p := Find(text, '&');
    if text == "" || tokens == [] {
      TokensOfNothing(text, tokens);
    } else if p == |text| {
      TokensOfLast(text);
      OneTokenOnly(text, tokens);
    } else {
      var first, rest := text[..p], text[p + 1..];
      assert text == first + "&" + rest;
      TokensOfFirst(first, rest);
      TokensAreExact(rest, tokens[1..]);
      FirstTokenOnly(first, rest, tokens);
      hide Tokens, AreTokensOf;
      assert tokens == [tokens[0]] + tokens[1..];
      assert ([first] + Tokens(rest))[1..] == Tokens(rest);
    }
  }

  /**
   * The token binds the value to the key: they are what its sides of the first `=` decode to; a
   * token without `=` is bound to itself.
   */
  ghost predicate Binds(token: string, key: string, value: string) {
    if '=' !in token then key == Decode(token) && value == Decode(token)
    else exists a, b :: token == a + "=" + b && '=' !in a && key == Decode(a) && value == Decode(b)
  }

  lemma BindingBinds(token: string, key: string, value: string)
    ensures Binds(token, key, value) <==> Binding(token) == (key, value)
  {
    hide Decode;
    var p := Find(token, '=');
    if p < |token| {
      assert token == token[..p] + "=" + token[p + 1..] && '=' !in token[..p];
      if a, b :| token == a + "=" + b && '=' !in a && key == Decode(a) && value == Decode(b) {
        assert token[|a|] == '=' && forall i :: 0 <= i < |a| ==> token[i] == a[i];
        assert p == |a|;
        assert a == token[..p] && b == token[p + 1..];
      }
    }
  }

  /** The first token with the key binds it to the value. */
  ghost predicate FirstBinds(tokens: seq<string>, i: nat, key: string, value: string) {
    && i < |tokens| && Binds(tokens[i], key, value)
    && forall j, v :: 0 <= j < i ==> !Binds(tokens[j], key, v)
  }

  ghost predicate BindsFirst(tokens: seq<string>, key: string, value: string) {
    exists i: nat :: FirstBinds(tokens, i, key, value)
  }

  /** Each key has the value that the first token that decodes to it binds it to. */
  ghost predicate IsParseOf(m: map<string, string>, tokens: seq<string>) {
    forall key, value :: BindsFirst(tokens, key, value) <==> key in m && m[key] == value
  }

  lemma KeyIsExact(tokens: seq<string>, key: string, value: string)
    ensures var m := FirstBindings(Bindings(tokens));
            BindsFirst(tokens, key, value) <==> key in m && m[key] == value
  {
    var bs := Bindings(tokens);
    hide Binds, Binding, FirstBindings;
    if key in FirstBindings(bs) {
      var i := FirstIndex(bs, key);
      FirstBindingWins(bs, i);
      BindingBinds(tokens[i], key, bs[i].1);
      forall j, v | 0 <= j < i
        ensures !Binds(tokens[j], key, v)
      {
        BindingBinds(tokens[j], key, v);
        assert bs[j].0 != key;
      }
      assert FirstBinds(tokens, i, key, bs[i].1);
    }
    if i: nat :| FirstBinds(tokens, i, key, value) {
      BindingBinds(tokens[i], key, value);
      forall j | 0 <= j < i
        ensures bs[j].0 != key
      {
        BindingBinds(tokens[j], key, bs[j].1);
      }
      FirstBindingWins(bs, i);
    }
  }

  /** Any text, whoever printed it, is parsed to what its tokens bind, the first ones first. */
  lemma ParseIsExact(text: string, tokens: seq<string>)
    requires AreTokensOf(tokens, text)
    ensures IsParseOf(Parse(text), tokens)
  {
    TokensAreExact(text, tokens);
    hide BindsFirst, FirstBindings, AreTokensOf;
    forall key, value
      ensures BindsFirst(tokens, key, value) <==> key in Parse(text) && Parse(text)[key] == value
    {
      KeyIsExact(tokens, key, value);
    }
  }

  /** A text without separators is its own key and value. */
  lemma ParseOfBareText(text: string)
    requires text != "" && '&' !in text && '=' !in text
    ensures Parse(text) == map[Decode(text) := Decode(text)]
  {
    TokensOfLast(text);
    hide Tokens, Decode;
    assert Bindings([text])[..0] == [];
  }

  lemma FirstIndex(bs: seq<(string, string)>, key: string) returns (i: nat)
    requires key in FirstBindings(bs)
    ensures i < |bs| && bs[i].0 == key && forall j :: 0 <= j < i ==> bs[j].0 != key
  {
    hide FirstBindings;
    var k :| 0 <= k < |bs| && bs[k].0 == key;
    i := 0;
    while bs[i].0 != key
      invariant i <= k && forall j :: 0 <= j < i ==> bs[j].0 != key
      decreases k - i
    {
      i := i + 1;
    }
  }

  // ----- The printer the parser inverts -----

  /** A key and a value, encoded. */
  datatype Entry = Entry(key: seq<Piece>, value: seq<Piece>)

  predicate Avoids(ps: seq<Piece>, c: char) {
    forall i :: 0 <= i < |ps| ==> ps[i] != Literal(c)
  }

  /** No raw `%` and `&` anywhere, no raw `=` in the key. */
  predicate Printable(e: Entry) {
    && AllWellFormed(e.key) && AllWellFormed(e.value)
    && Avoids(e.key, '&') && Avoids(e.key, '=') && Avoids(e.value, '&')
  }

  predicate AllPrintable(es: seq<Entry>) {
    forall e :: e in es ==> Printable(e)
  }

  predicate AllAsciiEntries(es: seq<Entry>) {
    forall e :: e in es ==> AllAscii(e.key) && AllAscii(e.value)
  }

  function PrintEntry(e: Entry): string {
    Render(e.key) + "=" + Render(e.value)
  }

  function Print(es: seq<Entry>): string {
    if es == [] then ""
    else if |es| == 1 then PrintEntry(es[0])
    else PrintEntry(es[0]) + "&" + Print(es[1..])
  }

  lemma {:induction false} RenderAvoids(ps: seq<Piece>, c: char)
    requires AllWellFormed(ps)
    requires c == '&' || c == '='
    requires Avoids(ps, c)
    ensures c !in Render(ps)
  {
    if ps != [] {
      RenderAvoids(ps[1..], c);
    }
  }

  lemma PrintedEntry(e: Entry)
    requires Printable(e)
    ensures '&' !in PrintEntry(e)
    ensures Binding(PrintEntry(e)) == (Decode(Render(e.key)), Decode(Render(e.value)))
  {
    RenderAvoids(e.key, '&');
    RenderAvoids(e.key, '=');
    RenderAvoids(e.value, '&');
    var t, k := PrintEntry(e), Render(e.key);
    assert t[|k|] == '=' && forall i :: 0 <= i < |k| ==> t[i] == k[i];
    assert Find(t, '=') == |k|;
    assert t[..|k|] == k && t[|k| + 1..] == Render(e.value);
  }

  lemma {:induction false} TokensOfPrint(es: seq<Entry>)
    requires AllPrintable(es)
    ensures |Tokens(Print(es))| == |es|
    ensures forall i :: 0 <= i < |es| ==> Tokens(Print(es))[i] == PrintEntry(es[i])
  {
    if |es| == 1 {
      PrintedEntry(es[0]);
      TokensOfLast(PrintEntry(es[0]));
    } else if |es| > 1 {
      PrintedEntry(es[0]);
      TokensOfPrint(es[1..]);
      TokensOfFirst(PrintEntry(es[0]), Print(es[1..]));
    }
  }

  lemma TokensOfLast(t: string)
    requires t != "" && '&' !in t
    ensures Tokens(t) == [t]
  {
    assert Find(t, '&') == |t|;
  }

  lemma TokensOfFirst(t: string, rest: string)
    requires '&' !in t
    ensures Tokens(t + "&" + rest) == [t] + Tokens(rest)
  {
    var s := t + "&" + rest;
    assert s[|t|] == '&' && forall i :: 0 <= i < |t| ==> s[i] == t[i];
    assert Find(s, '&') == |t|;
    assert s[..|t|] == t && s[|t| + 1..] == rest;
  }

  /** The bindings that a list of entries means. */
  function Meanings(es: seq<Entry>): (bs: seq<(string, string)>)
    requires AllPrintable(es)
    ensures |bs| == |es|
    ensures forall i :: 0 <= i < |es| ==> es[i] in es && bs[i] == (Meaning(es[i].key), Meaning(es[i].value))
  {
    seq(|es|, i requires 0 <= i < |es| => assert es[i] in es; (Meaning(es[i].key), Meaning(es[i].value)))
  }

  /** Parsing a printed list of ASCII entries gives, for each key, its first binding. */
  lemma ParseOfPrint(es: seq<Entry>)
    requires AllPrintable(es)
    requires AllAsciiEntries(es)
    ensures Parse(Print(es)) == FirstBindings(Meanings(es))
  {
    TokensOfPrint(es);
    var tokens := Tokens(Print(es));
    forall i | 0 <= i < |es| ensures Binding(tokens[i]) == Meanings(es)[i] {
      assert es[i] in es;
      PrintedEntry(es[i]);
      DecodeInvertsEncoders(es[i].key);
      DecodeInvertsEncoders(es[i].value);
    }
    assert Bindings(tokens) == Meanings(es);
  }

  lemma {:induction false} FirstBindingsOfMap(bs: seq<(string, string)>, m: map<string, string>)
    requires forall i :: 0 <= i < |bs| ==> bs[i].0 in m && m[bs[i].0] == bs[i].1
    ensures forall k :: k in FirstBindings(bs) ==> k in m && FirstBindings(bs)[k] == m[k]
  {
    if bs != [] {
      FirstBindingsOfMap(bs[..|bs| - 1], m);
    }
  }

  /** `es` lists exactly the bindings of `m`, in any order. */
  ghost predicate Lists(es: seq<Entry>, m: map<string, string>)
    requires AllPrintable(es)
  {
    && (forall e :: e in es ==> Meaning(e.key) in m && m[Meaning(e.key)] == Meaning(e.value))
    && (forall k :: k in m ==> exists e :: e in es && Meaning(e.key) == k)
  }

  /** Round trip: any map, its entries in any order, by any encoder that escapes enough. */
  lemma RoundTrip(es: seq<Entry>, m: map<string, string>)
    requires AllPrintable(es)
    requires AllAsciiEntries(es)
    requires Lists(es, m)
    ensures Parse(Print(es)) == m
  {
    ParseOfPrint(es);
    MeaningsAreMap(es, m);
  }

  // ----- Exactly which maps are given back -----

  predicate DistinctKeys(bs: seq<(string, string)>) {
    forall i, j :: 0 <= i < j < |bs| ==> bs[i].0 != bs[j].0
  }

  predicate HasKey(bs: seq<(string, string)>, key: string) {
    exists i :: 0 <= i < |bs| && bs[i].0 == key
  }

  /** One more binding: a new key, or one that has its binding already. */
  lemma OneMoreBinding(bs: seq<(string, string)>, n: nat)
    requires |bs| == n + 1
    ensures |FirstBindings(bs)| ==
            |FirstBindings(bs[..n])| + if HasKey(bs[..n], bs[n].0) then 0 else 1
  {
    assert bs[n].0 in FirstBindings(bs[..n]) <==> HasKey(bs[..n], bs[n].0);
  }

  lemma OneMoreKey(bs: seq<(string, string)>, n: nat)
    requires |bs| == n + 1
    ensures DistinctKeys(bs) <==> DistinctKeys(bs[..n]) && !HasKey(bs[..n], bs[n].0)
  {
    var most := bs[..n];
    assert forall i :: 0 <= i < n ==> most[i] == bs[i];
    if i :| 0 <= i < n && most[i].0 == bs[n].0 {
      assert !DistinctKeys(bs) && HasKey(most, bs[n].0);
    }
  }

  lemma NoBindings()
    ensures |FirstBindings([])| == 0 && DistinctKeys([])
  {
  }

  /** A map has as many entries as bindings exactly if their keys differ. */
  lemma {:induction false} CountOfBindings(bs: seq<(string, string)>)
    ensures |FirstBindings(bs)| <= |bs|
    ensures |FirstBindings(bs)| == |bs| <==> DistinctKeys(bs)
  {
    hide FirstBindings, DistinctKeys, HasKey;
    if bs == [] {
      NoBindings();
    } else {
      OneMoreBinding(bs, |bs| - 1);
      OneMoreKey(bs, |bs| - 1);
      CountOfBindings(bs[..|bs| - 1]);
    }
  }

  /** `bs` are the decoded entries, whatever their escapes denote. */
  predicate AreDecoded(bs: seq<(string, string)>, es: seq<Entry>) {
    && |bs| == |es|
    && forall i {:trigger bs[i]} :: 0 <= i < |es| ==>
         bs[i].0 == Decode(Render(es[i].key)) && bs[i].1 == Decode(Render(es[i].value))
  }

  lemma BindingsOfPrint(es: seq<Entry>)
    requires AllPrintable(es)
    ensures AreDecoded(Bindings(Tokens(Print(es))), es)
  {
    TokensOfPrint(es);
    hide Tokens, Print, Decode, Render, Printable;
    forall i | 0 <= i < |es|
      ensures Binding(Tokens(Print(es))[i]) == (Decode(Render(es[i].key)), Decode(Render(es[i].value)))
    {
      assert es[i] in es;
      PrintedEntry(es[i]);
    }
  }

  lemma MeaningsAreMap(es: seq<Entry>, m: map<string, string>)
    requires AllPrintable(es) && Lists(es, m)
    ensures FirstBindings(Meanings(es)) == m
  {
    hide AllWellFormed, Avoids, FirstBindings;
    var bs := Meanings(es);
    FirstBindingsOfMap(bs, m);
    forall k | k in m ensures k in FirstBindings(bs) {
      var e :| e in es && Meaning(e.key) == k;
      var i :| 0 <= i < |es| && es[i] == e;
      assert bs[i].0 == k;
    }
  }

  function LongestKey(es: seq<Entry>): (n: nat)
    ensures forall e :: e in es ==> |e.key| <= n
  {
    if es == [] then 0
    else
      var n := LongestKey(es[1..]);
      assert forall e :: e in es ==> e == es[0] || e in es[1..];
      if |es[0].key| > n then |es[0].key| else n
  }

  /** The entries list the map, and their decoded bindings, with different keys, are in it. */
  ghost predicate IsGivenBack(es: seq<Entry>, m: map<string, string>, bs: seq<(string, string)>) {
    && AllPrintable(es) && Lists(es, m)
    && AreDecoded(bs, es) && DistinctKeys(bs)
    && forall i {:trigger bs[i]} :: 0 <= i < |bs| ==> bs[i].0 in m && m[bs[i].0] == bs[i].1
  }

  lemma KeyIsListed(es: seq<Entry>, m: map<string, string>, key: string) returns (j: nat)
    requires AllPrintable(es) && Lists(es, m) && key in m
    ensures j < |es| && es[j] in es && Meaning(es[j].key) == key
  {
    hide AllWellFormed, Avoids;
    var e :| e in es && Meaning(e.key) == key;
    j :| 0 <= j < |es| && es[j] == e;
  }

  lemma KeyIsDecoded(es: seq<Entry>, bs: seq<(string, string)>, i: nat)
    requires AllPrintable(es) && AreDecoded(bs, es) && i < |es|
    ensures i < |bs| && AllWellFormed(es[i].key)
    ensures |bs[i].0| == |es[i].key| + 2 * HighEscapes(es[i].key)
    ensures HighEscapes(es[i].key) == 0 ==> bs[i].0 == Meaning(es[i].key)
  {
    hide HighEscapes, Decode, Render, AllWellFormed, Avoids;
    assert es[i] in es;
    DecodeRendered(es[i].key);
  }

  lemma SameKey(bs: seq<(string, string)>, i: nat, j: nat)
    requires DistinctKeys(bs) && i < |bs| && j < |bs| && bs[i].0 == bs[j].0
    ensures i == j
  {
  }

  /** A key that decodes to too many characters is another, longer key that does so too. */
  lemma LongerKey(es: seq<Entry>, m: map<string, string>, bs: seq<(string, string)>, i: nat)
    returns (j: nat)
    requires i < |es| && IsGivenBack(es, m, bs)
    ensures j < |es| && es[j] in es
    ensures HighEscapes(es[i].key) > 0 ==>
              |es[j].key| > |es[i].key| && HighEscapes(es[j].key) > 0
  {
    hide Lists, AllPrintable, AreDecoded, DistinctKeys, HighEscapes, AllWellFormed;
    KeyIsDecoded(es, bs, i);
    j := KeyIsListed(es, m, bs[i].0);
    KeyIsDecoded(es, bs, j);
    if HighEscapes(es[j].key) == 0 {
      SameKey(bs, i, j);
    }
  }

  /** So there is none: the keys get longer and longer. */
  lemma {:induction false} KeyIsAscii(es: seq<Entry>, m: map<string, string>,
                                      bs: seq<(string, string)>, i: nat)
    requires i < |es| && IsGivenBack(es, m, bs)
    ensures HighEscapes(es[i].key) == 0
    decreases LongestKey(es) - |es[i].key|
  {
    hide IsGivenBack, HighEscapes;
    assert es[i] in es;
    var j := LongerKey(es, m, bs, i);
    if HighEscapes(es[i].key) > 0 {
      KeyIsAscii(es, m, bs, j);
    }
  }

  /** Then the value of each key is read as it was meant. */
  lemma ValueIsAscii(es: seq<Entry>, m: map<string, string>, bs: seq<(string, string)>, i: nat)
    requires i < |es| && IsGivenBack(es, m, bs)
    ensures AllAscii(es[i].key) && AllAscii(es[i].value)
  {
    hide Decode, Render, AllWellFormed, Avoids, HighEscapes;
    assert es[i] in es && i < |bs|;
    KeyIsAscii(es, m, bs, i);
    DecodeRendered(es[i].key);
    HighEscapesCount(es[i].key);
    assert bs[i].0 == Decode(Render(es[i].key));
    assert m[Meaning(es[i].key)] == Meaning(es[i].value);
    DecodeInvertsEncoders(es[i].value);
  }

  lemma DistinctBindingsStay(bs: seq<(string, string)>)
    requires DistinctKeys(bs)
    ensures forall i {:trigger bs[i]} :: 0 <= i < |bs| ==>
              bs[i].0 in FirstBindings(bs) && FirstBindings(bs)[bs[i].0] == bs[i].1
  {
    hide FirstBindings;
    forall i {:trigger bs[i]} | 0 <= i < |bs|
      ensures bs[i].0 in FirstBindings(bs) && FirstBindings(bs)[bs[i].0] == bs[i].1
    {
      FirstBindingWins(bs, i);
    }
  }

  lemma GivenBack(es: seq<Entry>, m: map<string, string>)
    requires AllPrintable(es) && Lists(es, m) && DistinctKeys(Meanings(es))
    requires Parse(Print(es)) == m
    ensures IsGivenBack(es, m, Bindings(Tokens(Print(es))))
  {
    var bs := Bindings(Tokens(Print(es)));
    BindingsOfPrint(es);
    assert |bs| == |es|;
    hide AllPrintable, Lists, DistinctKeys, AreDecoded, FirstBindings, Print, Tokens;
    MeaningsAreMap(es, m);
    CountOfBindings(Meanings(es));
    CountOfBindings(bs);
    DistinctBindingsStay(bs);
  }

  /**
   * A map, each key printed once, is given back if and only if no escape in the text denotes a
   * byte above 0x7F.
   */
  lemma RoundTripIsExact(es: seq<Entry>, m: map<string, string>)
    requires AllPrintable(es) && Lists(es, m) && DistinctKeys(Meanings(es))
    ensures Parse(Print(es)) == m <==> AllAsciiEntries(es)
  {
    hide AllPrintable, Lists, DistinctKeys, IsGivenBack, Parse, Print, AllAscii;
    if AllAsciiEntries(es) {
      RoundTrip(es, m);
    } else if Parse(Print(es)) == m {
      GivenBack(es, m);
      forall e | e in es
        ensures AllAscii(e.key) && AllAscii(e.value)
      {
        var i :| 0 <= i < |es| && es[i] == e;
        ValueIsAscii(es, m, Bindings(Tokens(Print(es))), i);
      }
    }
  }

  /** For any text: the value of a key is the one of the first token that decodes to it. */
  lemma {:induction false} FirstBindingWins(bs: seq<(string, string)>, i: nat)
    requires i < |bs|
    requires forall j :: 0 <= j < i ==> bs[j].0 != bs[i].0
    ensures bs[i].0 in FirstBindings(bs) && FirstBindings(bs)[bs[i].0] == bs[i].1
  {
    if i < |bs| - 1 {
      FirstBindingWins(bs[..|bs| - 1], i);
    } else {
      assert bs[i].0 !in FirstBindings(bs[..i]);
    }
  }
}
