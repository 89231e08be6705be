/**
 The names of the two keys a leased step owns in the bucket.

 Identifiers are byte strings, as Go strings are. Every segment of a key is
 written in unpadded base64url (section 5 of RFC 4648), so a dot can only ever
 be a separator.
 */
module LeaseKeys {
  import opened Prelude

  type byte = n: int | 0 <= n < 256

  const CLAIM_PREFIX := "lease."
  const RENEW_PREFIX := "renew."

  datatype KeyError = TenantRequired | RunAndStepRequired

  /** The base64url alphabet. */
  function Symbol(n: int): (c: char)
    requires 0 <= n < 64
  {
    if n < 26 then 'A' + n as char
    else if n < 52 then 'a' + (n - 26) as char
    else if n < 62 then '0' + (n - 52) as char
    else if n == 62 then '-'
    else '_'
  }

  lemma SymbolIsInjective(m: int, n: int)
    requires 0 <= m < 64 && 0 <= n < 64
    requires Symbol(m) == Symbol(n)
    ensures m == n
  {
  }

  /** Unpadded base64url, three bytes to four symbols. */
  function Encode(s: seq<byte>): (r: string)
    ensures s != [] ==> r != []
    ensures '.' !in r
  {
    if |s| == 0 then ""
    else if |s| == 1 then
      [Symbol(s[0] / 4), Symbol(s[0] % 4 * 16)]
    else if |s| == 2 then
      [Symbol(s[0] / 4), Symbol(s[0] % 4 * 16 + s[1] / 16), Symbol(s[1] % 16 * 4)]
    else
      [Symbol(s[0] / 4), Symbol(s[0] % 4 * 16 + s[1] / 16),
       Symbol(s[1] % 16 * 4 + s[2] / 64), Symbol(s[2] % 64)] + Encode(s[3..])
  }

  function ClaimKey(tenant: seq<byte>, run: seq<byte>, step: seq<byte>): (r: Result<string, KeyError>)
  {
    if tenant == [] then Err(TenantRequired)
    else if run == [] || step == [] then Err(RunAndStepRequired)
    else Ok(CLAIM_PREFIX + Encode(tenant) + "." + Encode(run) + "." + Encode(step))
  }

  function TrimPrefix(s: string, prefix: string): (r: string)
  {
    if prefix <= s then s[|prefix|..] else s
  }

  function RenewKeyFor(claim: string): (r: string)
  {
    RENEW_PREFIX + TrimPrefix(claim, CLAIM_PREFIX)
  }

  lemma TripleIsInjective(a: byte, b: byte, c: byte, a': byte, b': byte, c': byte)
    requires Symbol(a / 4) == Symbol(a' / 4)
    requires Symbol(a % 4 * 16 + b / 16) == Symbol(a' % 4 * 16 + b' / 16)
    requires Symbol(b % 16 * 4 + c / 64) == Symbol(b' % 16 * 4 + c' / 64)
    requires Symbol(c % 64) == Symbol(c' % 64)
    ensures a == a' && b == b' && c == c'
  {
    SymbolIsInjective(a / 4, a' / 4);
    SymbolIsInjective(a % 4 * 16 + b / 16, a' % 4 * 16 + b' / 16);
    SymbolIsInjective(b % 16 * 4 + c / 64, b' % 16 * 4 + c' / 64);
    SymbolIsInjective(c % 64, c' % 64);
  }

  lemma EncodeSplit(s: seq<byte>)
    requires |s| >= 3
    ensures |Encode(s)| >= 4
    ensures Encode(s)[0] == Symbol(s[0] / 4)
    ensures Encode(s)[1] == Symbol(s[0] % 4 * 16 + s[1] / 16)
    ensures Encode(s)[2] == Symbol(s[1] % 16 * 4 + s[2] / 64)
    ensures Encode(s)[3] == Symbol(s[2] % 64)
    ensures Encode(s)[4..] == Encode(s[3..])
  {
  }

  /** The last one or two bytes are read as if padded with zero bytes. */
  lemma EncodeTail(s: seq<byte>)
    requires |s| < 3
    ensures |s| == 0 ==> Encode(s) == ""
    ensures |s| == 1 ==> Encode(s) == [Symbol(s[0] / 4), Symbol(s[0] % 4 * 16)]
    ensures |s| == 2 ==> Encode(s) == [Symbol(s[0] / 4), Symbol(s[0] % 4 * 16 + s[1] / 16), Symbol(s[1] % 16 * 4)]
  {
  }

  lemma OneByteIsInjective(a: byte, b: byte)
    requires Symbol(a / 4) == Symbol(b / 4) && Symbol(a % 4 * 16) == Symbol(b % 4 * 16)
    ensures a == b
  {
    SymbolIsInjective(a / 4, b / 4);
    SymbolIsInjective(a % 4 * 16, b % 4 * 16);
  }

  lemma TwoBytesAreInjective(a: byte, b: byte, a': byte, b': byte)
    requires [Symbol(a / 4), Symbol(a % 4 * 16 + b / 16), Symbol(b % 16 * 4)]
          == [Symbol(a' / 4), Symbol(a' % 4 * 16 + b' / 16), Symbol(b' % 16 * 4)]
    ensures a == a' && b == b'
  {
    var e := [Symbol(a / 4), Symbol(a % 4 * 16 + b / 16), Symbol(b % 16 * 4)];
    assert e[0] == Symbol(a' / 4) && e[1] == Symbol(a' % 4 * 16 + b' / 16) && e[2] == Symbol(b' % 16 * 4);
    TripleIsInjective(a, b, 0, a', b', 0);
  }

  lemma TailLength(s: seq<byte>)
    requires |s| < 3
    ensures |Encode(s)| == if |s| == 0 then 0 else |s| + 1
  {
  }

  lemma TailIsInjective(s: seq<byte>, t: seq<byte>)
    requires |s| < 3 && |t| < 3
    requires Encode(s) == Encode(t)
    ensures s == t
  {
    TailLength(s);
    TailLength(t);
    if |s| == 1 {
      OneByteTail(s, t);
    } else if |s| == 2 {
      TwoByteTail(s, t);
    }
  }

  lemma TwoByteTail(s: seq<byte>, t: seq<byte>)
    requires |s| == 2 && |t| == 2 && Encode(s) == Encode(t)
    ensures s == t
  {
    EncodeTail(s);
    EncodeTail(t);
    TwoBytesAreInjective(s[0], s[1], t[0], t[1]);
  }

  lemma OneByteTail(s: seq<byte>, t: seq<byte>)
    requires |s| == 1 && |t| == 1 && Encode(s) == Encode(t)
    ensures s == t
  {
    EncodeTail(s);
    EncodeTail(t);
    assert Encode(s)[0] == Encode(t)[0] && Encode(s)[1] == Encode(t)[1];
    OneByteIsInjective(s[0], t[0]);
  }

  lemma {:induction false} EncodeIsInjective(s: seq<byte>, t: seq<byte>)
    requires Encode(s) == Encode(t)
    ensures s == t
  {
    if |s| < 3 && |t| < 3 {
      TailIsInjective(s, t);
    } else if |s| < 3 {
      EncodeTail(s);
      EncodeSplit(t);
      assert false;
    } else if |t| < 3 {
      EncodeTail(t);
      EncodeSplit(s);
      assert false;
    } else {
      EncodeSplit(s);
      EncodeSplit(t);
      EncodeIsInjective(s[3..], t[3..]);
      TripleIsInjective(s[0], s[1], s[2], t[0], t[1], t[2]);
      assert s == [s[0], s[1], s[2]] + s[3..];
      assert t == [t[0], t[1], t[2]] + t[3..];
    }
  }

  lemma CancelKey(t: string, r: string, s: string, t': string, r': string, s': string)
    requires '.' !in t && '.' !in r && '.' !in t' && '.' !in r'
    requires CLAIM_PREFIX + t + "." + r + "." + s == CLAIM_PREFIX + t' + "." + r' + "." + s'
    ensures t == t' && r == r' && s == s'
  {
    var k, k' := CLAIM_PREFIX + t + "." + r + "." + s, CLAIM_PREFIX + t' + "." + r' + "." + s';
    assert k[6..] == t + "." + (r + "." + s);
    assert k'[6..] == t' + "." + (r' + "." + s');
    CancelToken(t, r + "." + s, t', r' + "." + s', '.');
    CancelToken(r, s, r', s', '.');
  }

  /** Leases of different (tenant, run, step) never share a claim key. */
  lemma ClaimKeyIsInjective(tenant: seq<byte>, run: seq<byte>, step: seq<byte>,
                            tenant': seq<byte>, run': seq<byte>, step': seq<byte>)
    requires ClaimKey(tenant, run, step).Ok?
    requires ClaimKey(tenant, run, step) == ClaimKey(tenant', run', step')
    ensures tenant == tenant' && run == run' && step == step'
  {
    CancelKey(Encode(tenant), Encode(run), Encode(step), Encode(tenant'), Encode(run'), Encode(step'));
    EncodeIsInjective(tenant, tenant');
    EncodeIsInjective(run, run');
    EncodeIsInjective(step, step');
  }

  /** No claim key is a renewal key, and two claims never share a renewal. */
  lemma RenewKeysAreApart(tenant: seq<byte>, run: seq<byte>, step: seq<byte>, other: string)
    requires ClaimKey(tenant, run, step).Ok?
    ensures var claim := ClaimKey(tenant, run, step).value;
            && RenewKeyFor(claim) != claim
            && !(CLAIM_PREFIX <= RenewKeyFor(claim))
            && (CLAIM_PREFIX <= other && RenewKeyFor(other) == RenewKeyFor(claim) ==> other == claim)
  {
    var claim := ClaimKey(tenant, run, step).value;
    assert RenewKeyFor(claim)[0] == 'r';
    assert CLAIM_PREFIX[0] == 'l' && claim[0] == 'l';
    assert CLAIM_PREFIX <= claim;
    assert claim == CLAIM_PREFIX + claim[|CLAIM_PREFIX|..];
    assert RenewKeyFor(claim)[|RENEW_PREFIX|..] == claim[|CLAIM_PREFIX|..];
    if CLAIM_PREFIX <= other && RenewKeyFor(other) == RenewKeyFor(claim) {
      assert RenewKeyFor(other)[|RENEW_PREFIX|..] == other[|CLAIM_PREFIX|..];
      assert other == CLAIM_PREFIX + other[|CLAIM_PREFIX|..];
    }
  }

  // ---- a key read back --------------------------------------------------------------------------

  /** The number of a symbol of the base64url alphabet, in table 2 of RFC 4648. */
  function NumberOf(c: char): (r: Option<int>)
    ensures r.Some? ==> 0 <= r.value < 64
  {
    if 'A' <= c <= 'Z' then Some(c as int - 65)
    else if 'a' <= c <= 'z' then Some(c as int - 97 + 26)
    else if '0' <= c <= '9' then Some(c as int - 48 + 52)
    else if c == '-' then Some(62)
    else if c == '_' then Some(63)
    else None
  }

  predicate AllSymbols(s: string) {
    forall i :: 0 <= i < |s| ==> NumberOf(s[i]).Some?
  }

  /** Four symbols to three bytes, six bits to a symbol, and a shorter group at the end. */
  function Decode(s: string): (r: seq<byte>)
    requires AllSymbols(s)
  {
    if |s| < 2 then []
    else
      var a, b := NumberOf(s[0]).value, NumberOf(s[1]).value;
      if |s| == 2 then [a * 4 + b / 16]
      else
        var c := NumberOf(s[2]).value;
        if |s| == 3 then [a * 4 + b / 16, b % 16 * 16 + c / 4]
        else
          var d := NumberOf(s[3]).value;
          [a * 4 + b / 16, b % 16 * 16 + c / 4, c % 4 * 64 + d] + Decode(s[4..])
  }

  lemma SymbolReads(n: int)
    requires 0 <= n < 64
    ensures NumberOf(Symbol(n)) == Some(n)
  {
  }

  lemma TripleReads(a: byte, b: byte, c: byte)
    ensures NumberOf(Symbol(a / 4)) == Some(a / 4)
    ensures NumberOf(Symbol(a % 4 * 16 + b / 16)) == Some(a % 4 * 16 + b / 16)
    ensures NumberOf(Symbol(b % 16 * 4 + c / 64)) == Some(b % 16 * 4 + c / 64)
    ensures NumberOf(Symbol(c % 64)) == Some(c % 64)
    ensures a / 4 * 4 + (a % 4 * 16 + b / 16) / 16 == a
    ensures (a % 4 * 16 + b / 16) % 16 * 16 + (b % 16 * 4 + c / 64) / 4 == b
    ensures (b % 16 * 4 + c / 64) % 4 * 64 + c % 64 == c
  {
    SymbolReads(a / 4);
    SymbolReads(a % 4 * 16 + b / 16);
    SymbolReads(b % 16 * 4 + c / 64);
    SymbolReads(c % 64);
  }

  lemma DecodeGroup(e: string, a: byte, b: byte, c: byte)
    requires |e| >= 4 && AllSymbols(e[4..])
    requires NumberOf(e[0]) == Some(a / 4) && NumberOf(e[1]) == Some(a % 4 * 16 + b / 16)
    requires NumberOf(e[2]) == Some(b % 16 * 4 + c / 64) && NumberOf(e[3]) == Some(c % 64)
    ensures AllSymbols(e) && Decode(e) == [a, b, c] + Decode(e[4..])
  {
    assert forall i :: 4 <= i < |e| ==> e[i] == e[4..][i - 4];
    TripleReads(a, b, c);
  }

  lemma OneReads(a: byte, e: string)
    requires e == [Symbol(a / 4), Symbol(a % 4 * 16)]
    ensures AllSymbols(e) && Decode(e) == [a]
  {
    SymbolReads(a / 4);
    SymbolReads(a % 4 * 16);
    TripleReads(a, 0, 0);
  }

  lemma TwoRead(a: byte, b: byte, e: string)
    requires e == [Symbol(a / 4), Symbol(a % 4 * 16 + b / 16), Symbol(b % 16 * 4)]
    ensures AllSymbols(e) && Decode(e) == [a, b]
  {
    SymbolReads(b % 16 * 4);
    TripleReads(a, b, 0);
  }

  /** What is encoded is read back by the alphabet and the layout of the standard. */
  lemma {:induction false} DecodeEncode(s: seq<byte>)
    ensures AllSymbols(Encode(s)) && Decode(Encode(s)) == s
  {
    if |s| >= 3 {
      DecodeEncode(s[3..]);
      EncodeSplit(s);
      TripleReads(s[0], s[1], s[2]);
      DecodeGroup(Encode(s), s[0], s[1], s[2]);
      assert s == [s[0], s[1], s[2]] + s[3..];
    } else if |s| == 2 {
      EncodeTail(s);
      TwoRead(s[0], s[1], Encode(s));
    } else if |s| == 1 {
      EncodeTail(s);
      OneReads(s[0], Encode(s));
    }
  }

  /** The part before the first dot. */
  function First(s: string): (r: string)
    ensures r <= s && '.' !in r && (|r| < |s| ==> s[|r|] == '.')
  {
    if s == "" || s[0] == '.' then "" else [s[0]] + First(s[1..])
  }

  /** What is left after it and its dot. */
  function Rest(s: string): (r: string) {
    if |First(s)| < |s| then s[|First(s)| + 1..] else ""
  }

  lemma CutAtDot(a: string, b: string)
    requires '.' !in a
    ensures First(a + "." + b) == a && Rest(a + "." + b) == b
  {
    var s := a + "." + b;
    var f := First(s);
    assert s[|a|] == '.';
    assert '.' in s && (|f| == |s| ==> f == s);
    assert s == f + "." + Rest(s);
    CancelToken(f, Rest(s), a, b, '.');
  }

  /** A claim key is the prefix and then tenant, run and step, each in a segment of its own, in that order. */
  lemma ClaimKeyReads(tenant: seq<byte>, run: seq<byte>, step: seq<byte>)
    ensures ClaimKey(tenant, run, step).Ok? <==> tenant != [] && run != [] && step != []
    ensures ClaimKey(tenant, run, step) == Err(TenantRequired) <==> tenant == []
    ensures ClaimKey(tenant, run, step).Ok? ==>
              var key := ClaimKey(tenant, run, step).value;
              && "lease." <= key
              && var segments := key[6..];
                 && AllSymbols(First(segments)) && Decode(First(segments)) == tenant
                 && AllSymbols(First(Rest(segments))) && Decode(First(Rest(segments))) == run
                 && AllSymbols(Rest(Rest(segments))) && Decode(Rest(Rest(segments))) == step
                 && RenewKeyFor(key) == "renew." + segments
  {
    if ClaimKey(tenant, run, step).Ok? {
      var t, r, s := Encode(tenant), Encode(run), Encode(step);
      var key := ClaimKey(tenant, run, step).value;
      assert key[6..] == t + "." + (r + "." + s);
      CutAtDot(t, r + "." + s);
      CutAtDot(r, s);
      DecodeEncode(tenant);
      DecodeEncode(run);
      DecodeEncode(step);
    }
  }
}
