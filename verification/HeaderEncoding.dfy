/**
 * Header values as section 3.1.3.2 of the CloudEvents HTTP Protocol Binding 1.0 has senders write
 * them. The parser does not decode them.
 */
module HeaderEncoding {
  import opened Wrappers
  import opened JsonValues
  import opened CloudEvents
  import opened HttpEvents
  import StorageEvents
  import FormUrl

  /** Space, double quote, percent, and every byte that is not printable ASCII. */
  predicate NeedsEncoding(c: char) {
    c <= ' ' || c == '"' || c == '%' || c > '~'
  }

  function HexDigit(v: nat): char
    requires v < 16
  {
    if v < 10 then (v + 48) as char else (v + 55) as char
  }

  function EncodedChar(c: char): string {
    if NeedsEncoding(c) then ['%', HexDigit(c as int / 16 % 16), HexDigit(c as int % 16)] else [c]
  }

  function EncodedValue(s: string): string {
    if s == "" then "" else EncodedChar(s[0]) + EncodedValue(s[1..])
  }

  predicate IsPlain(s: string) {
    forall i :: 0 <= i < |s| ==> !NeedsEncoding(s[i])
  }

  /** Encoding makes a text longer, and leaves alone exactly the plain ones. */
  lemma {:induction false} EncodingShows(s: string)
    ensures |EncodedValue(s)| >= |s|
    ensures |EncodedValue(s)| == |s| <==> IsPlain(s)
    ensures EncodedValue(s) == s <==> IsPlain(s)
  {
    hide NeedsEncoding, HexDigit;
    if s != "" {
      EncodingShows(s[1..]);
      assert s == [s[0]] + s[1..];
      assert IsPlain(s) <==> !NeedsEncoding(s[0]) && IsPlain(s[1..]);
    }
  }

  function EncodedOption(value: Option<string>): Option<string> {
    if value.None? then None else Some(EncodedValue(value.value))
  }

  /** The message whose attributes are the header values of `m`; its content type is not encoded. */
  function EncodedMessage(m: Message): Message {
    Message(EncodedValue(m.id), EncodedValue(m.source), EncodedValue(m.ceType),
            EncodedOption(m.specVersion), m.dataContentType, EncodedOption(m.dataSchema),
            EncodedOption(m.subject), EncodedOption(m.time), m.data)
  }

  /** No attribute needs encoding. */
  predicate HasPlainAttributes(m: Message) {
    && IsPlain(m.id) && IsPlain(m.source) && IsPlain(m.ceType) && IsPlain(m.specVersion.GetOr(""))
    && IsPlain(m.dataSchema.GetOr("")) && IsPlain(m.subject.GetOr("")) && IsPlain(m.time.GetOr(""))
  }

  lemma OptionShows(value: Option<string>)
    ensures EncodedOption(value) == value <==> IsPlain(value.GetOr(""))
  {
    EncodingShows(value.GetOr(""));
  }

  /** The parser reads header values as they are, so it reads `m` only if none is encoded. */
  lemma HeadersAreTakenRaw(m: Message, target: string, length: string)
    ensures BinaryMessage(BinaryOf(EncodedMessage(m), target, length)) == Ok(EncodedMessage(m))
    ensures BinaryMessage(BinaryOf(EncodedMessage(m), target, length)) == Ok(m) <==>
            HasPlainAttributes(m)
  {
    var encoded := EncodedMessage(m);
    EncodingShows(m.id);
    EncodingShows(m.source);
    EncodingShows(m.ceType);
    OptionShows(m.specVersion);
    OptionShows(m.dataSchema);
    OptionShows(m.subject);
    OptionShows(m.time);
    hide IsPlain, EncodedValue, EncodedOption, BinaryMessage, BinaryOf, IsBinaryFormOf;
    BinaryOfIsForm(encoded, target, length);
    ReadsExactlyBinaryForms(BinaryOf(encoded, target, length), encoded);
  }

  /** A subject that needs encoding is delivered encoded in binary mode. */
  lemma SubjectIsDeliveredEncoded(p: Platform, m: Message, e: CloudEvent, target: string,
                                  length: string)
    requires m.subject.Some? && HasPlainAttributes(m.(subject := None))
    requires Meaning(p, m) == Ok(e) && !StorageEvents.IsCandidate(e)
    requires m.dataContentType.Some? ==> !IsReservedType(m.dataContentType.value)
    ensures Delivered(p, m) == Ok([e])
    ensures ReadHttp(p, BinaryOf(EncodedMessage(m), target, length)) ==
            Ok([e.(subject := Some(EncodedValue(m.subject.value)))])
  {
    var q, encoded := BinaryOf(EncodedMessage(m), target, length), EncodedMessage(m);
    EncodingShows(m.id);
    EncodingShows(m.source);
    EncodingShows(m.ceType);
    OptionShows(m.specVersion);
    OptionShows(m.dataSchema);
    OptionShows(m.time);
    hide IsPlain, EncodedValue, BinaryOf, ReadHttp, IsReservedType;
    BinaryOfIsForm(encoded, target, length);
    assert HasHeader(q, "content-type") ==> m.dataContentType == Some(q.headers["content-type"]);
    BinaryDelivers(p, q, encoded);
    assert encoded == m.(subject := Some(EncodedValue(m.subject.value)));
    assert Meaning(p, encoded) == Ok(e.(subject := encoded.subject));
    assert !StorageEvents.IsCandidate(e.(subject := encoded.subject));
  }

  /** The percent-decoder of the form parser would decode such values, for ASCII texts. */
  lemma {:induction false} FormDecoderInvertsEncoding(s: string)
    requires forall i :: 0 <= i < |s| ==> s[i] as int < 128
    ensures FormUrl.Decode(EncodedValue(s)) == s
  {
    if s != "" {
      var c, rest := s[0], EncodedValue(s[1..]);
      FormDecoderInvertsEncoding(s[1..]);
      if NeedsEncoding(c) {
        var a, b := HexDigit(c as int / 16 % 16), HexDigit(c as int % 16);
        assert FormUrl.FromChars(a, b) == Some(c);
        var encoded := ['%', a, b] + rest;
        assert encoded[3..] == rest;
      } else {
        assert ([c] + rest)[1..] == rest;
      }
      assert s == [s[0]] + s[1..];
    }
  }
}
