/**
 Cache entries: a count and length-framed output messages. The cache reads an entry
 whole or not at all; the collector reads as far as it can.
 */
module CacheCodec {
  import opened Prelude
  import opened Definition
  import opened Frames

  type Bytes = seq<octet>

  datatype OutputRef = OutputRef(port: string, digest: Digest)

  datatype DecodeError = Truncated | BadMessage | TrailingBytes

  // ---- the frames ------------------------------------------------------------------------

  function Framed(messages: seq<Bytes>): (r: Bytes) {
    if messages == [] then [] else Word(|messages[0]|) + messages[0] + Framed(messages[1..])
  }

  function Encode(messages: seq<Bytes>): (r: Bytes) {
    Word(|messages|) + Framed(messages)
  }

  /** A message at the front of the bytes, and what follows it. */
  datatype Split = Split(message: Bytes, rest: Bytes)

  function Next(rest: Bytes): (r: Option<Split>)
    ensures r.Some? ==> |r.value.rest| + 8 <= |rest|
  {
    if |rest| < 8 then None
    else
      var length := Number(rest[..8]);
      if |rest| - 8 < length then None else Some(Split(rest[8..8 + length], rest[8 + length..]))
  }

  predicate Short(messages: seq<Bytes>) {
    |messages| < WORD && forall i :: 0 <= i < |messages| ==> |messages[i]| < WORD
  }

  lemma NextReadsFrame(message: Bytes, rest: Bytes)
    requires |message| < WORD
    ensures Next(Word(|message|) + message + rest) == Some(Split(message, rest))
  {
    var b := Word(|message|) + message + rest;
    WordReads(|message|);
    assert b[..8] == Word(|message|);
    assert b[8..8 + |message|] == message && b[8 + |message|..] == rest;
  }

  lemma NextIsFrame(rest: Bytes)
    requires Next(rest).Some?
    ensures var s := Next(rest).value; |s.message| < WORD && rest == Word(|s.message|) + s.message + s.rest
  {
    WordWrites(rest[..8]);
    var length := Number(rest[..8]);
    assert rest == rest[..8] + rest[8..8 + length] + rest[8 + length..];
  }

  // ---- reading an entry whole ---------------------------------------------------------------

  /** The next `count` messages, each parsed, and then nothing. */
  function Parse(count: nat, rest: Bytes, parse: Bytes -> Option<OutputRef>): (r: Result<seq<OutputRef>, DecodeError>) {
    if count == 0 then if rest == [] then Ok([]) else Err(TrailingBytes)
    else if Next(rest).None? then Err(Truncated)
    else if parse(Next(rest).value.message).None? then Err(BadMessage)
    else
      match Parse(count - 1, Next(rest).value.rest, parse)
      case Ok(outs) => Ok([parse(Next(rest).value.message).value] + outs)
      case Err(e) => Err(e)
  }

  function Decoded(encoded: Bytes, parse: Bytes -> Option<OutputRef>): (r: Result<seq<OutputRef>, DecodeError>) {
    if |encoded| < 8 then Err(Truncated) else Parse(Number(encoded[..8]), encoded[8..], parse)
  }

  function Prefixed(
    outs: seq<OutputRef>, r: Result<seq<OutputRef>, DecodeError>): (s: Result<seq<OutputRef>, DecodeError>)
  {
    match r case Ok(more) => Ok(outs + more) case Err(e) => Err(e)
  }

  method DecodeOutputs(encoded: Bytes, parse: Bytes -> Option<OutputRef>)
    returns (r: Result<seq<OutputRef>, DecodeError>)
    ensures r == Decoded(encoded, parse)
  {
    if |encoded| < 8 { return Err(Truncated); }
    var rest, outs := encoded[8..], [];
    var left := Number(encoded[..8]);
    ghost var whole := Parse(left, rest, parse);
    NothingBefore(whole);
    while left > 0
      invariant left >= 0 && Prefixed(outs, Parse(left, rest, parse)) == whole
    {
      var split := Next(rest);
      if split.None? { return Err(Truncated); }
      var out := parse(split.value.message);
      if out.None? { return Err(BadMessage); }
      Regroup(outs, out.value, Parse(left - 1, split.value.rest, parse));
      outs := outs + [out.value];
      rest := split.value.rest;
      left := left - 1;
    }
    if rest != [] { return Err(TrailingBytes); }
    assert outs + [] == outs;
    r := Ok(outs);
  }

  lemma NothingBefore(r: Result<seq<OutputRef>, DecodeError>)
    ensures Prefixed([], r) == r
  {
    if r.Ok? { assert [] + r.value == r.value; }
  }

  lemma Regroup(outs: seq<OutputRef>, out: OutputRef, r: Result<seq<OutputRef>, DecodeError>)
    ensures Prefixed(outs + [out], r) == Prefixed(outs, Prefixed([out], r))
  {
    if r.Ok? { assert outs + [out] + r.value == outs + ([out] + r.value); }
  }

  method EncodeOutputs(outs: seq<OutputRef>, marshal: OutputRef -> Bytes) returns (encoded: Bytes)
    ensures encoded == Encode(Messages(outs, marshal))
  {
    encoded := Word(|outs|);
    var messages := Messages(outs, marshal);
    var i := 0;
    while i < |outs|
      invariant 0 <= i <= |outs| && encoded + Framed(messages[i..]) == Encode(messages)
    {
      assert messages[i..][0] == messages[i] && messages[i..][1..] == messages[i + 1..];
      var message := marshal(outs[i]);
      encoded := encoded + Word(|message|);
      encoded := encoded + message;
      i := i + 1;
    }
  }

  function Messages(outs: seq<OutputRef>, marshal: OutputRef -> Bytes): (r: seq<Bytes>)
    ensures |r| == |outs|
  {
    seq(|outs|, i requires 0 <= i < |outs| => marshal(outs[i]))
  }

  /** Every message parses to its output. */
  predicate ParsesTo(messages: seq<Bytes>, outs: seq<OutputRef>, parse: Bytes -> Option<OutputRef>) {
    |messages| == |outs| && forall i :: 0 <= i < |outs| ==> parse(messages[i]) == Some(outs[i])
  }

  lemma {:induction false} FramesParse(messages: seq<Bytes>, outs: seq<OutputRef>, parse: Bytes -> Option<OutputRef>)
    requires Short(messages) && ParsesTo(messages, outs, parse)
    ensures Parse(|messages|, Framed(messages), parse) == Ok(outs)
  {
    if messages != [] {
      NextReadsFrame(messages[0], Framed(messages[1..]));
      FramesParse(messages[1..], outs[1..], parse);
      assert outs == [outs[0]] + outs[1..];
    }
  }

  /** The messages an entry that parses is framed from. */
  lemma {:induction false} ParseIsFrames(count: nat, rest: Bytes, parse: Bytes -> Option<OutputRef>)
    returns (messages: seq<Bytes>)
    requires Parse(count, rest, parse).Ok?
    ensures |messages| == count && rest == Framed(messages)
    ensures ParsesTo(messages, Parse(count, rest, parse).value, parse)
    ensures forall i :: 0 <= i < |messages| ==> |messages[i]| < WORD
  {
    if count == 0 {
      messages := [];
    } else {
      NextIsFrame(rest);
      var s := Next(rest).value;
      var more := ParseIsFrames(count - 1, s.rest, parse);
      messages := [s.message] + more;
      assert messages[1..] == more;
    }
  }

  /** An entry decodes to outputs exactly when it is the encoding of messages that parse to them. */
  lemma DecodedIsEncoded(encoded: Bytes, outs: seq<OutputRef>, parse: Bytes -> Option<OutputRef>)
    ensures Decoded(encoded, parse) == Ok(outs) <==>
            exists messages :: Short(messages) && ParsesTo(messages, outs, parse) && encoded == Encode(messages)
  {
    if Decoded(encoded, parse) == Ok(outs) {
      WordWrites(encoded[..8]);
      var messages := ParseIsFrames(Number(encoded[..8]), encoded[8..], parse);
      assert encoded == encoded[..8] + encoded[8..];
      assert Short(messages) && encoded == Encode(messages);
    }
    forall messages | Short(messages) && ParsesTo(messages, outs, parse) && encoded == Encode(messages)
      ensures Decoded(encoded, parse) == Ok(outs)
    {
      WordReads(|messages|);
      assert encoded[..8] == Word(|messages|) && encoded[8..] == Framed(messages);
      FramesParse(messages, outs, parse);
    }
  }

  /** What the cache stores it reads back, given that a message does. */
  lemma RoundTrip(outs: seq<OutputRef>, marshal: OutputRef -> Bytes, parse: Bytes -> Option<OutputRef>)
    requires forall o :: parse(marshal(o)) == Some(o)
    requires Short(Messages(outs, marshal))
    ensures Decoded(Encode(Messages(outs, marshal)), parse) == Ok(outs)
  {
    assert ParsesTo(Messages(outs, marshal), outs, parse);
    DecodedIsEncoded(Encode(Messages(outs, marshal)), outs, parse);
  }

  // ---- reading an entry for its digests ---------------------------------------------------------

  /** "<algo>:<hex>", for a digest that has both. */
  function DigestText(d: Digest): (r: Option<string>) {
    if d.algo == "" || d.hex == "" then None else Some(d.algo + ":" + d.hex)
  }

  function TextsOf(o: OutputRef): (r: seq<string>) {
    if DigestText(o.digest).Some? then [DigestText(o.digest).value] else []
  }

  /** The outputs that can be read before anything goes wrong. */
  function Readable(count: nat, rest: Bytes, parse: Bytes -> Option<OutputRef>): (r: seq<OutputRef>) {
    if count == 0 || Next(rest).None? || parse(Next(rest).value.message).None? then []
    else [parse(Next(rest).value.message).value] + Readable(count - 1, Next(rest).value.rest, parse)
  }

  function ReadableOf(encoded: Bytes, parse: Bytes -> Option<OutputRef>): (r: seq<OutputRef>) {
    if |encoded| < 8 then [] else Readable(Number(encoded[..8]), encoded[8..], parse)
  }

  method EntryDigests(encoded: Bytes, parse: Bytes -> Option<OutputRef>) returns (digests: seq<string>)
    ensures digests == Collect(TextsOf, ReadableOf(encoded, parse))
  {
    digests := [];
    if |encoded| < 8 { return; }
    var rest := encoded[8..];
    var left := Number(encoded[..8]);
    ghost var all := Readable(left, rest, parse);
    ghost var read: seq<OutputRef> := [];
    Ends(read);
    while left > 0
      invariant left >= 0 && read + [] == read
      invariant read + Readable(left, rest, parse) == all && digests == Collect(TextsOf, read)
    {
      var split := Next(rest);
      if split.None? { return; }
      var out := parse(split.value.message);
      if out.None? { return; }
      rest := split.value.rest;
      digests := digests + TextsOf(out.value);
      CollectSnoc(TextsOf, read, out.value);
      Moves(read, out.value, Readable(left - 1, rest, parse));
      read := read + [out.value];
      Ends(read);
      left := left - 1;
    }
  }

  lemma Moves(read: seq<OutputRef>, out: OutputRef, more: seq<OutputRef>)
    ensures read + ([out] + more) == read + [out] + more
  {
  }

  lemma Ends(read: seq<OutputRef>)
    ensures read + [] == read
  {
  }

  lemma {:induction false} ParsedIsReadable(count: nat, rest: Bytes, parse: Bytes -> Option<OutputRef>)
    requires Parse(count, rest, parse).Ok?
    ensures Readable(count, rest, parse) == Parse(count, rest, parse).value
  {
    if count > 0 { ParsedIsReadable(count - 1, Next(rest).value.rest, parse); }
  }

  /** From every entry the cache can read, the collector reads exactly its well-formed digests, in order. */
  lemma CollectorReadsEveryDigest(encoded: Bytes, outs: seq<OutputRef>, parse: Bytes -> Option<OutputRef>, text: string)
    requires Decoded(encoded, parse) == Ok(outs)
    ensures ReadableOf(encoded, parse) == outs
    ensures text in Collect(TextsOf, ReadableOf(encoded, parse)) <==>
            exists i :: 0 <= i < |outs| && DigestText(outs[i].digest) == Some(text)
  {
    ParsedIsReadable(Number(encoded[..8]), encoded[8..], parse);
    CollectMember(TextsOf, outs, text);
    forall i | 0 <= i < |outs| ensures text in TextsOf(outs[i]) <==> DigestText(outs[i].digest) == Some(text) {}
  }

  lemma {:induction false} ReadableIgnoresTail(count: nat, rest: Bytes, junk: Bytes, parse: Bytes -> Option<OutputRef>)
    requires Parse(count, rest, parse).Ok?
    ensures Readable(count, rest + junk, parse) == Readable(count, rest, parse)
    ensures junk != [] ==> Parse(count, rest + junk, parse) == Err(TrailingBytes)
  {
    if count == 0 {
      assert rest + junk == junk;
    } else {
      NextIsFrame(rest);
      var s := Next(rest).value;
      assert rest + junk == Word(|s.message|) + s.message + (s.rest + junk);
      NextReadsFrame(s.message, s.rest + junk);
      ReadableIgnoresTail(count - 1, s.rest, junk, parse);
    }
  }

  /**
   A row the cache refuses can still yield digests: with anything after its last
   message, an entry no longer decodes and is read for the same digests.
   */
  lemma UnreadableEntryYields(encoded: Bytes, junk: Bytes, parse: Bytes -> Option<OutputRef>)
    requires Decoded(encoded, parse).Ok? && junk != []
    ensures Decoded(encoded + junk, parse) == Err(TrailingBytes)
    ensures ReadableOf(encoded + junk, parse) == Decoded(encoded, parse).value
  {
    assert (encoded + junk)[..8] == encoded[..8] && (encoded + junk)[8..] == encoded[8..] + junk;
    ReadableIgnoresTail(Number(encoded[..8]), encoded[8..], junk, parse);
    ParsedIsReadable(Number(encoded[..8]), encoded[8..], parse);
  }

  // ---- what a row yields, from its bytes ----------------------------------------------------------

  predicate AllParse(messages: seq<Bytes>, parse: Bytes -> Option<OutputRef>) {
    forall i :: 0 <= i < |messages| ==> parse(messages[i]).Some?
  }

  /** The bytes begin with these messages, framed, and every one of them parses. */
  ghost predicate Begins(count: nat, rest: Bytes, messages: seq<Bytes>, parse: Bytes -> Option<OutputRef>) {
    Short(messages) && |messages| <= count && Framed(messages) <= rest && AllParse(messages, parse)
  }

  /** Frames the bytes begin with are read, in order. */
  lemma {:induction false} BegunIsRead(
    count: nat, rest: Bytes, messages: seq<Bytes>, parse: Bytes -> Option<OutputRef>, i: nat)
    requires Begins(count, rest, messages, parse) && i < |messages|
    ensures i < |Readable(count, rest, parse)| && Readable(count, rest, parse)[i] == parse(messages[i]).value
  {
    var first, more := messages[0], messages[1..];
    var after := rest[8 + |first|..];
    assert rest == Word(|first|) + first + after;
    NextReadsFrame(first, after);
    if i > 0 {
      assert Framed(messages) == Word(|first|) + first + Framed(more);
      assert Framed(more) == Framed(messages)[8 + |first|..] <= after;
      BegunIsRead(count - 1, after, more, parse, i - 1);
    }
  }

  /** What is read is framed at the front of the bytes. */
  lemma {:induction false} ReadIsBegun(count: nat, rest: Bytes, parse: Bytes -> Option<OutputRef>, n: nat)
    returns (messages: seq<Bytes>)
    requires n <= |Readable(count, rest, parse)| && count < WORD
    ensures |messages| == n && Begins(count, rest, messages, parse)
  {
    messages := [];
    if n > 0 {
      NextIsFrame(rest);
      var s := Next(rest).value;
      var more := ReadIsBegun(count - 1, s.rest, parse, n - 1);
      messages := [s.message] + more;
      assert messages[1..] == more;
      assert Framed(messages) == Word(|s.message|) + s.message + Framed(more);
    }
  }

  /**
   Within the count in its first word, the row begins with framed messages that all
   parse, the last of which has this digest.
   */
  ghost predicate Shows(encoded: Bytes, messages: seq<Bytes>, parse: Bytes -> Option<OutputRef>, text: string) {
    && |encoded| >= 8 && messages != []
    && Begins(Number(encoded[..8]), encoded[8..], messages, parse)
    && DigestText(parse(messages[|messages| - 1]).value.digest) == Some(text)
  }

  lemma ShownIsYielded(encoded: Bytes, messages: seq<Bytes>, parse: Bytes -> Option<OutputRef>, text: string)
    requires Shows(encoded, messages, parse, text)
    ensures text in Collect(TextsOf, ReadableOf(encoded, parse))
  {
    var last := |messages| - 1;
    BegunIsRead(Number(encoded[..8]), encoded[8..], messages, parse, last);
    CollectMember(TextsOf, ReadableOf(encoded, parse), text);
    assert text in TextsOf(ReadableOf(encoded, parse)[last]);
  }

  lemma YieldedIsShown(encoded: Bytes, parse: Bytes -> Option<OutputRef>, text: string) returns (messages: seq<Bytes>)
    requires text in Collect(TextsOf, ReadableOf(encoded, parse))
    ensures Shows(encoded, messages, parse, text)
  {
    var outs := ReadableOf(encoded, parse);
    CollectMember(TextsOf, outs, text);
    var i :| 0 <= i < |outs| && text in TextsOf(outs[i]);
    WordWrites(encoded[..8]);
    messages := ReadIsBegun(Number(encoded[..8]), encoded[8..], parse, i + 1);
    BegunIsRead(Number(encoded[..8]), encoded[8..], messages, parse, i);
  }

  /** A row, whether or not the cache can read it, yields exactly the digests its bytes begin with. */
  lemma YieldsWhatItShows(encoded: Bytes, parse: Bytes -> Option<OutputRef>, text: string)
    ensures text in Collect(TextsOf, ReadableOf(encoded, parse)) <==>
            exists messages :: Shows(encoded, messages, parse, text)
  {
    forall messages | Shows(encoded, messages, parse, text)
      ensures text in Collect(TextsOf, ReadableOf(encoded, parse))
    {
      ShownIsYielded(encoded, messages, parse, text);
    }
    if text in Collect(TextsOf, ReadableOf(encoded, parse)) {
      var messages := YieldedIsShown(encoded, parse, text);
    }
  }

  /**
   The promise that an unreadable row yields nothing holds of exactly the rows whose
   bytes begin with no framed, parsing messages that end in a digest.
   */
  lemma YieldsNothing(encoded: Bytes, parse: Bytes -> Option<OutputRef>)
    ensures Collect(TextsOf, ReadableOf(encoded, parse)) == [] <==>
            forall messages, text :: !Shows(encoded, messages, parse, text)
  {
    var texts := Collect(TextsOf, ReadableOf(encoded, parse));
    forall messages, text | Shows(encoded, messages, parse, text) ensures text in texts {
      ShownIsYielded(encoded, messages, parse, text);
    }
    if texts != [] {
      assert texts[0] in texts;
      var messages := YieldedIsShown(encoded, parse, texts[0]);
    }
  }
}
