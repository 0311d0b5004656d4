/** The strict DER length reader of scripts/update-tpm-ek-anchors.py, against sections 8.1.3 and 10.1
    of ITU-T X.690. */
module DerLength {
  import opened Bytes
  import opened Sequences

  const LIMIT := 0x1_0000_0000

  // ---------- the minimal header ----------

  /** The shortest big-endian octets of a positive number. */
  function Octets(n: nat): (s: seq<byte>)
    requires n > 0
  {
    if n < 256 then [n as byte] else Octets(n / 256) + [(n % 256) as byte]
  }

  /** `int.from_bytes(..., "big")`. */
  function BigEndian(s: seq<byte>): nat {
    if s == [] then 0 else 256 * BigEndian(s[..|s| - 1]) + s[|s| - 1] as int
  }

  lemma {:induction false} OctetsRoundTrip(n: nat)
    requires n > 0
    ensures Octets(n) != [] && Octets(n)[0] != 0 && BigEndian(Octets(n)) == n
  {
    if n >= 256 {
      OctetsRoundTrip(n / 256);
      assert Octets(n)[..|Octets(n)| - 1] == Octets(n / 256);
    } else {
      assert Octets(n)[..0] == [];
    }
  }

  lemma {:induction false} BigEndianRoundTrip(s: seq<byte>)
    requires s != [] && s[0] != 0
    ensures BigEndian(s) > 0 && Octets(BigEndian(s)) == s
  {
    var n := |s| - 1;
    assert s == s[..n] + [s[n]];
    if n == 0 {
      assert s[..0] == [];
    } else {
      BigEndianRoundTrip(s[..n]);
      assert BigEndian(s) / 256 == BigEndian(s[..n]) && BigEndian(s) % 256 == s[n] as int;
    }
  }

  function Power(k: nat): nat { if k == 0 then 1 else 256 * Power(k - 1) }

  lemma {:induction false} BigEndianBound(s: seq<byte>)
    ensures BigEndian(s) < Power(|s|)
  {
    if s != [] {
      BigEndianBound(s[..|s| - 1]);
    }
  }

  lemma {:induction false} OctetsBound(n: nat, k: nat)
    requires 0 < n < Power(k)
    ensures |Octets(n)| <= k
  {
    if n >= 256 {
      OctetsBound(n / 256, k - 1);
    }
  }

  /** Four octets hold exactly the numbers below 2^32. */
  lemma {:induction false} FourOctets(s: seq<byte>, n: nat)
    ensures |s| <= 4 ==> BigEndian(s) < LIMIT
    ensures 0 < n < LIMIT ==> |Octets(n)| <= 4
  {
    assert Power(1) == 256 * Power(0) && Power(2) == 256 * Power(1);
    assert Power(3) == 256 * Power(2) && Power(4) == 256 * Power(3);
    BigEndianBound(s);
    if 0 < n < LIMIT {
      OctetsBound(n, 4);
    }
  }

  /** The DER header of a SEQUENCE with `n` content octets. */
  function Header(n: nat): (h: seq<byte>)
    requires n < LIMIT
  {
    if n < 128 then [0x30, n as byte]
    else
      FourOctets([], n);
      [0x30, (128 + |Octets(n)|) as byte] + Octets(n)
  }

  // ---------- der_length ----------

  /** `der_length`. */
  function DerLength(data: seq<byte>): Option<nat> {
    if |data| < 2 || data[0] != 0x30 then None
    else if data[1] < 0x80 then Some(2 + data[1] as int)
    else
      var count := data[1] as int % 128;
      if count == 0 || count > 4 || |data| < 2 + count || data[2] == 0 then None
      else
        var length := BigEndian(data[2..2 + count]);
        if length < 0x80 then None else Some(2 + count + length)
  }

  /** `data` starts with the minimal header of `n` content octets. */
  ghost predicate StartsWith(data: seq<byte>, n: nat) {
    n < LIMIT && Header(n) <= data
  }

  lemma {:induction false} ReadsHeader(data: seq<byte>, n: nat)
    requires StartsWith(data, n)
    ensures DerLength(data) == Some(|Header(n)| + n)
  {
    if n >= 128 {
      var o := Octets(n);
      OctetsRoundTrip(n);
      FourOctets(o, n);
      assert data[..2 + |o|] == Header(n);
      assert data[2..2 + |o|] == data[..2 + |o|][2..] == o;
      assert data[0] == Header(n)[0] && data[1] == Header(n)[1] && data[2] == Header(n)[2] == o[0];
    } else {
      assert data[0] == Header(n)[0] && data[1] == Header(n)[1];
    }
  }

  lemma {:induction false} OnlyHeaders(data: seq<byte>) returns (n: nat)
    requires DerLength(data).Some?
    ensures StartsWith(data, n)
  {
    if data[1] < 0x80 {
      n := data[1] as int;
      assert Header(n) == data[..2];
    } else {
      var count := data[1] as int % 128;
      var o := data[2..2 + count];
      n := BigEndian(o);
      BigEndianRoundTrip(o);
      FourOctets(o, n);
      assert Header(n) == data[..2 + count];
    }
  }

  /** A length is reported exactly for minimal headers below 2^32, whatever follows them: every
      indefinite, over-long or non-minimal form is refused. */
  lemma {:induction false} DerLengthIsExact(data: seq<byte>, total: nat)
    ensures DerLength(data) == Some(total) <==>
            exists n :: StartsWith(data, n) && total == |Header(n)| + n
  {
    if DerLength(data) == Some(total) {
      var n := OnlyHeaders(data);
      ReadsHeader(data, n);
    }
    if n :| StartsWith(data, n) && total == |Header(n)| + n {
      ReadsHeader(data, n);
    }
  }

  /** The length is the whole input exactly when the input is one header and its contents. */
  lemma {:induction false} ExactlyOneValue(data: seq<byte>)
    ensures DerLength(data) == Some(|data|) <==>
            exists content: seq<byte> :: |content| < LIMIT && data == Header(|content|) + content
  {
    DerLengthIsExact(data, |data|);
    if n :| StartsWith(data, n) && |data| == |Header(n)| + n {
      SplitHeader(data, n);
    }
    if content: seq<byte> :| |content| < LIMIT && data == Header(|content|) + content {
      assert StartsWith(data, |content|);
    }
  }

  lemma {:induction false} SplitHeader(data: seq<byte>, n: nat)
    requires StartsWith(data, n) && |data| == |Header(n)| + n
    ensures exists content: seq<byte> :: |content| < LIMIT && data == Header(|content|) + content
  {
    var content := data[|Header(n)|..];
    assert |content| == n && data == Header(n) + content;
  }
}
