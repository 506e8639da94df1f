/** Words in memory, least significant byte first. */
module WordBytes {
  import opened Common
  import opened Pages

  /** The low n bytes of a word, least significant first. */
  function Bytes(w: nat, n: nat): (r: seq<nat>)
    ensures |r| == n
  {
    if n == 0 then [] else [w % 256] + Bytes(w / 256, n - 1)
  }

  function Value(bs: seq<nat>): nat {
    if bs == [] then 0 else bs[0] + 256 * Value(bs[1..])
  }

  function Power(n: nat): (p: nat)
    ensures p > 0
  {
    if n == 0 then 1 else 256 * Power(n - 1)
  }

  lemma {:induction false} DivMod(w: nat, p: nat)
    requires p > 0
    ensures w % (256 * p) == w % 256 + 256 * ((w / 256) % p)
  {
    var q, r := (w / 256) / p, w % 256 + 256 * ((w / 256) % p);
    assert w / 256 == q * p + (w / 256) % p;
    assert w == q * (256 * p) + r by {
      assert 256 * (q * p) == q * (256 * p);
    }
    ModUnique(w, 256 * p, q, r);
  }

  /** Reading back n bytes gives the word modulo 256^n. */
  lemma {:induction false} ValueOfBytes(w: nat, n: nat)
    ensures Value(Bytes(w, n)) == w % Power(n)
  {
    if n > 0 {
      ValueOfBytes(w / 256, n - 1);
      DivMod(w, Power(n - 1));
      assert Bytes(w, n)[1..] == Bytes(w / 256, n - 1);
    }
  }

  lemma {:induction false} LowBytes(w: nat, m: nat, n: nat)
    requires m <= n
    ensures Bytes(w, n)[..m] == Bytes(w, m)
  {
    if m > 0 {
      LowBytes(w / 256, m - 1, n - 1);
    }
  }

  function Zeroes(n: nat): (r: seq<nat>)
    ensures |r| == n
  {
    seq(n, i requires 0 <= i < n => 0)
  }

  /** Words of eight bytes, one after the other. */
  function Wide(words: seq<nat>): (r: seq<nat>)
    ensures |r| == 8 * |words|
  {
    if words == [] then [] else Wide(words[..|words| - 1]) + Bytes(words[|words| - 1], 8)
  }

  /** Words of four bytes. */
  function Thin(words: seq<nat>): (r: seq<nat>)
    ensures |r| == 4 * |words|
  {
    if words == [] then [] else Thin(words[..|words| - 1]) + Bytes(words[|words| - 1], 4)
  }

  lemma {:induction false} WideAppend(a: seq<nat>, b: seq<nat>)
    ensures Wide(a + b) == Wide(a) + Wide(b)
    decreases |b|
  {
    if b == [] {
      assert a + b == a;
    } else {
      var n := |b| - 1;
      WideAppend(a, b[..n]);
      assert a + b == (a + b[..n]) + [b[n]] && b == b[..n] + [b[n]];
      WideSnoc(a + b[..n], b[n]);
      WideSnoc(b[..n], b[n]);
      Regroup(Wide(a), Wide(b[..n]), Bytes(b[n], 8));
    }
  }

  lemma {:induction false} WideSnoc(words: seq<nat>, w: nat)
    ensures Wide(words + [w]) == Wide(words) + Bytes(w, 8)
  {
    assert (words + [w])[..|words|] == words;
  }

  lemma {:induction false} WideOne(w: nat)
    ensures Wide([w]) == Bytes(w, 8)
  {
    assert [w][..0] == [];
  }

  lemma {:induction false} ThinSlice(words: seq<nat>, i: nat)
    requires i < |words|
    ensures Thin(words)[4 * i..4 * i + 4] == Bytes(words[i], 4)
    decreases |words|
  {
    var n := |words| - 1;
    if i < n {
      ThinSlice(words[..n], i);
    }
  }

  lemma {:induction false} WideSlice(words: seq<nat>, i: nat)
    requires i < |words|
    ensures Wide(words)[8 * i..8 * i + 8] == Bytes(words[i], 8)
    decreases |words|
  {
    var n := |words| - 1;
    if i < n {
      WideSlice(words[..n], i);
    }
  }

  lemma {:induction false} ThinWord(words: seq<nat>, i: nat)
    requires i < |words|
    ensures Thin(words)[4 * i..4 * i + 4] == Bytes(words[i], 4)
    ensures Value(Thin(words)[4 * i..4 * i + 4]) == words[i] % 0x1_0000_0000
  {
    ThinSlice(words, i);
    ValueOfBytes(words[i], 4);
    PowerOfWords();
  }

  lemma {:induction false} WideWord(words: seq<nat>, i: nat)
    requires i < |words|
    ensures Wide(words)[8 * i..8 * i + 8] == Bytes(words[i], 8)
    ensures Value(Wide(words)[8 * i..8 * i + 8]) == words[i] % 0x1_0000_0000_0000_0000
  {
    WideSlice(words, i);
    ValueOfBytes(words[i], 8);
    PowerOfWords();
  }

  lemma {:induction false} PowerOfWords()
    ensures Power(2) == 0x1_0000 && Power(4) == 0x1_0000_0000 && Power(8) == 0x1_0000_0000_0000_0000
  {
    assert Power(2) == 0x1_0000;
    assert Power(4) == 0x1_0000_0000;
  }
}
