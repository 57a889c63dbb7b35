/** The Toeplitz hash of usertools/dpdk-rss-flows.py, on bits: a word or a byte is its bits, the most
    significant one first. */
module RssHash {

  type Octet = b: seq<bool> | |b| == 8 witness seq(8, _ => false)
  type Word = w: seq<bool> | |w| == 32 witness seq(32, _ => false)

  datatype Option<T> = None | Some(value: T)

  // ---------- operations on 32 bits ----------

  function Zeros(n: nat): (z: seq<bool>)
    ensures |z| == n
  {
    seq(n, _ => false)
  }

  function Or(a: Word, b: Word): Word { seq(32, k requires 0 <= k < 32 => a[k] || b[k]) }

  function Xor(a: seq<bool>, b: seq<bool>): (x: seq<bool>)
    requires |a| == |b|
    ensures |x| == |a|
  {
    seq(|a|, k requires 0 <= k < |a| => a[k] != b[k])
  }

  /** w << j, in 32 bits. */
  function ShiftLeft(w: Word, j: nat): Word
    requires j <= 32
  {
    w[j..] + Zeros(j)
  }

  /** b << n, as a word. */
  function Place(b: Octet, n: nat): Word
    requires n <= 24
  {
    Zeros(24 - n) + b + Zeros(n)
  }

  /** b >> n, as a word. */
  function ShiftRight(b: Octet, n: nat): Word
    requires n <= 8
  {
    Zeros(24 + n) + b[..8 - n]
  }

  // ---------- the hash as a sum over data bits ----------

  /** Bit p of a byte string. */
  predicate Bit(s: seq<Octet>, p: nat)
    requires p < 8 * |s|
  {
    s[p / 8][p % 8]
  }

  /** The 32 key bits from bit p on. */
  function Window(key: seq<Octet>, p: nat): Word
    requires p + 32 <= 8 * |key|
  {
    seq(32, k requires 0 <= k < 32 => Bit(key, p + k))
  }

  /** The key has a whole window for each of the first n data bits that is set. */
  predicate Covers(key: seq<Octet>, data: seq<Octet>, n: nat)
    requires n <= 8 * |data|
  {
    forall p: nat :: p < n && Bit(data, p) ==> p + 32 <= 8 * |key|
  }

  /** The exclusive or of the key windows at the set bits among the first n. */
  function Toeplitz(key: seq<Octet>, data: seq<Octet>, n: nat): Word
    requires n <= 8 * |data| && Covers(key, data, n)
  {
    if n == 0 then Zeros(32)
    else if Bit(data, n - 1) then Xor(Toeplitz(key, data, n - 1), Window(key, n - 1))
    else Toeplitz(key, data, n - 1)
  }

  lemma KeyLongEnough(key: seq<Octet>, data: seq<Octet>)
    requires |key| >= |data| + 4
    ensures Covers(key, data, 8 * |data|)
  {
  }

  function XorBytes(a: seq<Octet>, b: seq<Octet>): seq<Octet>
    requires |a| == |b|
  {
    seq(|a|, i requires 0 <= i < |a| => Xor(a[i], b[i]))
  }

  lemma BitXor(a: seq<Octet>, b: seq<Octet>, p: nat)
    requires |a| == |b| && p < 8 * |a|
    ensures Bit(XorBytes(a, b), p) == (Bit(a, p) != Bit(b, p))
  {
    assert XorBytes(a, b)[p / 8] == Xor(a[p / 8], b[p / 8]);
  }

  lemma XorLaws(a: Word, b: Word, w: Word)
    ensures Xor(Xor(a, w), b) == Xor(Xor(a, b), w) == Xor(a, Xor(b, w))
    ensures Xor(Xor(a, w), Xor(b, w)) == Xor(a, b)
  {
  }

  /** The hash is linear: the hash of a difference is the difference of the hashes. */
  lemma {:induction false} Linear(key: seq<Octet>, a: seq<Octet>, b: seq<Octet>, n: nat)
    requires |a| == |b| && n <= 8 * |a| && Covers(key, a, n) && Covers(key, b, n)
    ensures Covers(key, XorBytes(a, b), n)
    ensures Toeplitz(key, XorBytes(a, b), n) == Xor(Toeplitz(key, a, n), Toeplitz(key, b, n))
  {
    forall p: nat | p < n && Bit(XorBytes(a, b), p) ensures p + 32 <= 8 * |key| {
      BitXor(a, b, p);
    }
    if n == 0 {
      assert Xor(Zeros(32), Zeros(32)) == Zeros(32);
    } else {
      Linear(key, a, b, n - 1);
      BitXor(a, b, n - 1);
      if Bit(a, n - 1) || Bit(b, n - 1) {
        XorLaws(Toeplitz(key, a, n - 1), Toeplitz(key, b, n - 1), Window(key, n - 1));
      }
    }
  }

  // ---------- the loops ----------

  /** The key word of data bit j of byte i, put together from four bytes and the start of a fifth. */
  method Keyword(key: seq<Octet>, i: nat, j: nat) returns (r: Option<Word>)
    requires j < 8
    ensures r.Some? <==> 8 * i + j + 32 <= 8 * |key|
    ensures r.Some? ==> r.value == Window(key, 8 * i + j)
  {
    if i + 3 >= |key| {
      return None;
    }
    var keyword: Word := Zeros(32);
    keyword := Or(keyword, Place(key[i], 24));
    keyword := Or(keyword, Place(key[i + 1], 16));
    keyword := Or(keyword, Place(key[i + 2], 8));
    keyword := Or(keyword, Place(key[i + 3], 0));
    ghost var base := keyword;
    assert forall k :: 0 <= k < 32 ==> base[k] == key[i + k / 8][k % 8];
    if j > 0 {
      keyword := ShiftLeft(keyword, j);
      if i + 4 >= |key| {
        return None;
      }
      keyword := Or(keyword, ShiftRight(key[i + 4], 8 - j));
    }
    r := Some(keyword);
    forall k | 0 <= k < 32 ensures keyword[k] == Window(key, 8 * i + j)[k] {
      var m, p := j + k, 8 * i + j + k;
      assert p / 8 == i + m / 8 && p % 8 == m % 8;
      assert Window(key, 8 * i + j)[k] == Bit(key, p) == key[i + m / 8][m % 8];
      if m < 32 {
        assert keyword[k] == base[m];
      } else {
        assert m / 8 == 4 && m % 8 == m - 32;
        assert keyword[k] == key[i + 4][m - 32];
      }
    }
  }

  /** toeplitz_hash: the loops compute the sum, and fail exactly when some set bit lacks its window. */
  method ToeplitzHash(key: seq<Octet>, data: seq<Octet>) returns (r: Option<Word>)
    ensures r.Some? <==> Covers(key, data, 8 * |data|)
    ensures r.Some? ==> r.value == Toeplitz(key, data, 8 * |data|)
  {
    var hash: Word := Zeros(32);
    for i := 0 to |data|
      invariant Covers(key, data, 8 * i) && hash == Toeplitz(key, data, 8 * i)
    {
      for j := 0 to 8
        invariant Covers(key, data, 8 * i + j) && hash == Toeplitz(key, data, 8 * i + j)
      {
        assert Bit(data, 8 * i + j) == data[i][j];
        if data[i][j] {
          var keyword := Keyword(key, i, j);
          if keyword.None? {
            return None;
          }
          hash := Xor(hash, keyword.value);
        }
      }
    }
    r := Some(hash);
  }
}
