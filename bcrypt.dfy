/** The password hasher: `bcrypt.hash(password, 10)` and
    `bcrypt.compare(password, hash)`.

    The one-way function itself is not modelled: a digest is a symbolic
    term that records the cost factor, the salt and the key bcrypt derives
    from the password, and nothing but `Compare` ever inspects it. What is
    modelled is which passwords a digest accepts. The library hands bcrypt
    the UTF-8 encoding of the password together with its byte length. The
    `$2b$` key schedule takes at most 72 of those bytes, appends the C
    string's terminating zero byte, and reads that stream cyclically until
    it has the 72 bytes of key material it mixes into the cipher state. Two
    passwords that yield the same 72 bytes are interchangeable. A U+0000 in
    the password is an ordinary zero byte of the stream. The salt is random
    in the source; here it is a parameter. */
module Bcrypt {

  type byte = b: int | 0 <= b < 256

  /** Cost factor passed by the register handler. */
  const Rounds: nat := 10

  /** Bytes of the encoded password that bcrypt feeds into its key schedule. */
  const MaxKeyBytes: nat := 72

  /** UTF-8 encoding of one Unicode scalar value (RFC 3629, section 3). */
  function EncodeChar(c: char): (bs: seq<byte>)
    ensures 1 <= |bs| <= 4
  {
    var cp := c as int;
    if cp < 0x80 then [cp]
    else if cp < 0x800 then [0xC0 + cp / 64, 0x80 + cp % 64]
    else if cp < 0x1_0000 then [0xE0 + cp / 4096, 0x80 + (cp / 64) % 64, 0x80 + cp % 64]
    else [0xF0 + cp / 262144, 0x80 + (cp / 4096) % 64, 0x80 + (cp / 64) % 64, 0x80 + cp % 64]
  }

  /** UTF-8 encoding of a string, as Node.js hands it to bcrypt. */
  function Utf8(s: string): seq<byte> {
    if s == [] then [] else EncodeChar(s[0]) + Utf8(s[1..])
  }

  /** The bytes the key schedule cycles through: the encoded password, cut
      to 72 bytes, and the terminating zero byte. */
  function KeyStream(password: string): (st: seq<byte>)
    ensures 1 <= |st| <= MaxKeyBytes + 1 && st[|st| - 1] == 0
  {
    var bytes := Utf8(password);
    (if |bytes| <= MaxKeyBytes then bytes else bytes[..MaxKeyBytes]) + [0]
  }

  /** The first `n` bytes of `st` repeated without end: they start with
      `st` and repeat with period `|st|`. */
  function Cycle(st: seq<byte>, n: nat): (r: seq<byte>)
    requires |st| > 0
    ensures |r| == n
    ensures forall i :: 0 <= i < n && i < |st| ==> r[i] == st[i]
    ensures forall i :: |st| <= i < n ==> r[i] == r[i - |st|]
    decreases n
  {
    if n <= |st| then st[..n] else st + Cycle(st, n - |st|)
  }

  /** The key material bcrypt actually uses: 72 bytes read cyclically from
      the key stream. */
  function Key(password: string): (k: seq<byte>)
    ensures |k| == MaxKeyBytes
    ensures forall i :: 0 <= i < MaxKeyBytes && i < |KeyStream(password)| ==> k[i] == KeyStream(password)[i]
    ensures forall i :: |KeyStream(password)| <= i < MaxKeyBytes ==> k[i] == k[i - |KeyStream(password)|]
  {
    Cycle(KeyStream(password), MaxKeyBytes)
  }

  /** A stored password hash: symbolic stand-in for `$2b$10$<salt><hash>`. */
  datatype Digest = Digest(cost: nat, salt: seq<byte>, key: seq<byte>)

  function HashWith(password: string, salt: seq<byte>, cost: nat): Digest {
    Digest(cost, salt, Key(password))
  }

  /** `bcrypt.compare(password, digest)`: rehash with the digest's own salt
      and cost, and compare. It holds exactly when the password derives the
      key the digest was made from. */
  predicate Compare(password: string, digest: Digest)
    ensures Compare(password, digest) <==> digest.key == Key(password)
  {
    HashWith(password, digest.salt, digest.cost) == digest
  }

  /** `bcrypt.hash(password, 10)` with the given salt. The password always
      compares equal to its own hash, and exactly the passwords that share
      its key do. */
  function Hash(password: string, salt: seq<byte>): (d: Digest)
    ensures d.cost == Rounds && d.salt == salt
    ensures Compare(password, d)
    ensures forall other :: Compare(other, d) <==> Key(other) == Key(password)
  {
    HashWith(password, salt, Rounds)
  }

  /** The decoder that inverts `EncodeChar`: the first byte gives the
      length, the others carry six bits each. */
  function DecodeChar(bs: seq<int>): int
    requires 1 <= |bs| <= 4
  {
    if |bs| == 1 then bs[0]
    else if |bs| == 2 then (bs[0] - 0xC0) * 64 + (bs[1] - 0x80)
    else if |bs| == 3 then (bs[0] - 0xE0) * 4096 + (bs[1] - 0x80) * 64 + (bs[2] - 0x80)
    else (bs[0] - 0xF0) * 262144 + (bs[1] - 0x80) * 4096 + (bs[2] - 0x80) * 64 + (bs[3] - 0x80)
  }

  /** Length of an encoded character as announced by its first byte. */
  function LeadLength(b: int): nat {
    if b < 0x80 then 1 else if b < 0xE0 then 2 else if b < 0xF0 then 3 else 4
  }

  lemma EncodeCharDecodes(c: char)
    ensures LeadLength(EncodeChar(c)[0]) == |EncodeChar(c)|
    ensures DecodeChar(EncodeChar(c)) == c as int
  {
    var cp := c as int;
    if 0x800 <= cp < 0x1_0000 {
      assert cp / 64 == (cp / 4096) * 64 + (cp / 64) % 64;
    } else if 0x1_0000 <= cp {
      assert cp / 64 == (cp / 4096) * 64 + (cp / 64) % 64;
      assert cp / 4096 == (cp / 262144) * 64 + (cp / 4096) % 64;
    }
  }

  /** The encoding of a character is recognisable at the front of any
      longer byte string, so it can be split off uniquely. */
  lemma EncodeCharPrefixFree(c: char, d: char, rest: seq<byte>, rest': seq<byte>)
    requires EncodeChar(c) + rest == EncodeChar(d) + rest'
    ensures c == d && rest == rest'
  {
    var ec, ed := EncodeChar(c), EncodeChar(d);
    EncodeCharDecodes(c);
    EncodeCharDecodes(d);
    assert ec[0] == (ec + rest)[0] == (ed + rest')[0] == ed[0];
    assert |ec| == |ed|;
    assert ec == (ec + rest)[..|ec|] == (ed + rest')[..|ed|] == ed;
    assert c as int == d as int;
    assert rest == (ec + rest)[|ec|..] == (ed + rest')[|ed|..] == rest';
  }

  /** Distinct strings have distinct UTF-8 encodings. */
  lemma {:induction false} Utf8Injective(s: string, t: string)
    requires Utf8(s) == Utf8(t)
    ensures s == t
  {
    if s != [] && t != [] {
      EncodeCharPrefixFree(s[0], t[0], Utf8(s[1..]), Utf8(t[1..]));
      Utf8Injective(s[1..], t[1..]);
      assert s == [s[0]] + s[1..] && t == [t[0]] + t[1..];
    }
  }

  lemma {:induction false} Utf8Length(s: string)
    ensures |s| <= |Utf8(s)| <= 4 * |s|
  {
    if s != [] {
      Utf8Length(s[1..]);
    }
  }

  lemma {:induction false} Utf8Append(s: string, t: string)
    ensures Utf8(s + t) == Utf8(s) + Utf8(t)
  {
    if s == [] {
      assert s + t == t;
    } else {
      assert (s + t)[0] == s[0] && (s + t)[1..] == s[1..] + t;
      Utf8Append(s[1..], t);
    }
  }

  /** A string below U+0080 encodes to its own code points, one byte each. */
  lemma {:induction false} AsciiEncoding(s: string)
    requires forall k :: 0 <= k < |s| ==> s[k] as int < 0x80
    ensures |Utf8(s)| == |s|
    ensures forall i :: 0 <= i < |s| ==> Utf8(s)[i] == s[i] as int
  {
    if s != [] {
      AsciiEncoding(s[1..]);
      assert Utf8(s) == [s[0] as int] + Utf8(s[1..]);
    }
  }

  /** Only U+0000 encodes to a zero byte. */
  lemma {:induction false} Utf8NoZero(s: string)
    requires forall k :: 0 <= k < |s| ==> s[k] != '\0'
    ensures forall i :: 0 <= i < |Utf8(s)| ==> Utf8(s)[i] != 0
  {
    if s != [] {
      Utf8NoZero(s[1..]);
      assert Utf8(s) == EncodeChar(s[0]) + Utf8(s[1..]);
    }
  }

  /** For a password of at most 72 bytes the key begins with the whole
      encoding, followed by a zero byte when there is room for one. */
  lemma ShortKey(password: string)
    requires |Utf8(password)| <= MaxKeyBytes
    ensures Key(password)[..|Utf8(password)|] == Utf8(password)
    ensures |Utf8(password)| < MaxKeyBytes ==> Key(password)[|Utf8(password)|] == 0
  {
    assert KeyStream(password) == Utf8(password) + [0];
  }

  /** Passwords of at most 72 bytes are told apart when their encodings
      have the same length, and always when neither contains U+0000: then a
      digest accepts such a password exactly when it is the one that was
      hashed. */
  lemma ShortPasswordsDistinguished(password: string, other: string, salt: seq<byte>)
    requires |Utf8(password)| <= MaxKeyBytes && |Utf8(other)| <= MaxKeyBytes
    ensures |Utf8(other)| == |Utf8(password)| ==>
              (Compare(other, Hash(password, salt)) <==> other == password)
    ensures '\0' !in password && '\0' !in other ==>
              (Compare(other, Hash(password, salt)) <==> other == password)
  {
    var b, c := Utf8(password), Utf8(other);
    ShortKey(password);
    ShortKey(other);
    if Compare(other, Hash(password, salt)) {
      assert Key(other) == Key(password);
      if '\0' !in password && '\0' !in other {
        Utf8NoZero(password);
        Utf8NoZero(other);
        assert |b| == |c|;
      }
      if |b| == |c| {
        assert c == Key(other)[..|c|] == Key(password)[..|b|] == b;
        Utf8Injective(other, password);
      }
    }
  }

  lemma {:induction false} CycleDoubled(st: seq<byte>, n: nat)
    requires |st| > 0
    ensures Cycle(st + st, n) == Cycle(st, n)
    decreases n
  {
    var m := |st|;
    if n <= m {
      assert (st + st)[..n] == st[..n];
    } else if n <= 2 * m {
      assert Cycle(st, n - m) == st[..n - m];
      assert (st + st)[..n] == st + st[..n - m];
    } else {
      CycleDoubled(st, n - 2 * m);
      assert Cycle(st, n - m) == st + Cycle(st, n - 2 * m);
      assert Cycle(st + st, n) == (st + st) + Cycle(st, n - 2 * m);
    }
  }

  /** The key stream of a short password repeats, so a password followed by
      U+0000 and itself again is accepted by its digest: "abcdef" and
      "abcdef\0abcdef" collide. */
  lemma RepeatedPasswordCollides(password: string, salt: seq<byte>)
    ensures Compare(password + ['\0'] + password, Hash(password, salt))
  {
    var whole := password + ['\0'] + password;
    var b := Utf8(password);
    Utf8Append(password + ['\0'], password);
    Utf8Append(password, ['\0']);
    assert Utf8(['\0']) == [0];
    var w := b + [0] + b;
    assert Utf8(whole) == w;
    if |w| <= MaxKeyBytes {
      assert KeyStream(whole) == KeyStream(password) + KeyStream(password);
      CycleDoubled(KeyStream(password), MaxKeyBytes);
    } else {
      var k, k' := Key(whole), Key(password);
      assert KeyStream(whole) == w[..MaxKeyBytes] + [0];
      if |b| >= MaxKeyBytes {
        assert KeyStream(password) == b[..MaxKeyBytes] + [0];
        forall i | 0 <= i < MaxKeyBytes ensures k[i] == k'[i] {
          assert k[i] == w[i] == b[i] == k'[i];
        }
      } else {
        var m := |b| + 1;
        assert KeyStream(password) == b + [0];
        forall i | 0 <= i < MaxKeyBytes ensures k[i] == k'[i] {
          if i < m {
            assert k[i] == w[i] == k'[i];
          } else {
            assert k'[i] == k'[i - m] == b[i - m] == w[i];
          }
        }
      }
      assert k == k';
    }
  }

  /** A U+0000 does not end the password: whatever follows it still takes
      part in the key. "abcdef\0xyz" is rejected by the digest of "abcdef",
      whose key repeats "abcdef" where the other has "xyz". */
  lemma NulKeepsWhatFollows(salt: seq<byte>)
    ensures !Compare("abcdef\0xyz", Hash("abcdef", salt))
  {
    var p, o := "abcdef", "abcdef\0xyz";
    AsciiEncoding(p);
    AsciiEncoding(o);
    assert KeyStream(p) == Utf8(p) + [0];
    assert Key(p)[7] == Key(p)[0] == 97;
    assert Key(o)[7] == KeyStream(o)[7] == 120;
  }

  /** Beyond 72 bytes nothing counts: once two passwords share a prefix of
      at least 72 characters, each is accepted by the other's digest, however
      they continue. */
  lemma LongPasswordsCollide(prefix: string, tail: string, tail': string, salt: seq<byte>)
    requires |prefix| >= MaxKeyBytes
    ensures Compare(prefix + tail', Hash(prefix + tail, salt))
  {
    Utf8Length(prefix);
    Utf8Append(prefix, tail);
    Utf8Append(prefix, tail');
    var b := Utf8(prefix);
    assert (b + Utf8(tail))[..MaxKeyBytes] == b[..MaxKeyBytes] == (b + Utf8(tail'))[..MaxKeyBytes];
    assert KeyStream(prefix + tail) == KeyStream(prefix + tail');
  }
}
