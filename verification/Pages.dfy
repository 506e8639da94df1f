/** Rounding to pages, for any page size. */
module Pages {

  /** Masking with ~(page - 1). */
  function Floor(x: nat, page: nat): (r: nat)
    requires page > 0
    ensures r <= x < r + page
  {
    x - x % page
  }

  function Ceil(x: nat, page: nat): nat
    requires page > 0
  {
    Floor(x + page - 1, page)
  }

  lemma {:induction false} ModUnique(x: nat, page: nat, q: int, r: nat)
    requires page > 0 && x == q * page + r && r < page
    ensures x % page == r
  {
    var d := x / page - q;
    assert d * page == r - x % page;
  }

  lemma {:induction false} FloorPage(x: nat, page: nat)
    requires page > 0
    ensures Floor(x + page, page) == Floor(x, page) + page
    ensures Floor(x, page) % page == 0
  {
    ModUnique(x + page, page, x / page + 1, x % page);
    ModUnique(x - x % page, page, x / page, 0);
  }

  /** Equal remainders stay equal. */
  lemma {:induction false} Congruent(x: nat, y: nat, k: nat, page: nat)
    requires page > 0 && x % page == y % page
    ensures (x + k) % page == (y + k) % page
  {
    var r := (y + k) % page;
    var q := (y + k) / page + x / page - y / page;
    assert x + k == q * page + r;
    ModUnique(x + k, page, q, r);
  }

  /** Multiples of a page are a page apart. */
  lemma {:induction false} AlignedApart(x: nat, y: nat, page: nat)
    requires page > 0 && x % page == 0 && y % page == 0 && x < y
    ensures x + page <= y
  {
    var d := y / page - x / page;
    assert y - x == d * page;
    assert d > 0;
    assert d * page >= page;
  }

  lemma {:induction false} FloorMonotone(x: nat, y: nat, page: nat)
    requires page > 0 && x <= y
    ensures Floor(x, page) <= Floor(y, page)
  {
    FloorPage(x, page);
    FloorPage(y, page);
    if Floor(x, page) > Floor(y, page) {
      AlignedApart(Floor(y, page), Floor(x, page), page);
    }
  }

  lemma {:induction false} AlignedSum(x: nat, y: nat, page: nat)
    requires page > 0 && x % page == 0 && y % page == 0
    ensures (x + y) % page == 0
  {
    ModUnique(x + y, page, x / page + y / page, 0);
  }

  lemma {:induction false} AlignedGap(x: nat, y: nat, page: nat)
    requires page > 0 && x % page == 0 && y % page == 0 && x <= y
    ensures (y - x) % page == 0
  {
    ModUnique(y - x, page, y / page - x / page, 0);
  }

  lemma {:induction false} UnitFits(x: nat, n: nat)
    requires n > 0 && x % n == 0 && x > 0
    ensures n <= x && (x - n) % n == 0
  {
    AlignedApart(0, x, n);
    FloorPage(x - n, n);
    ModUnique(x - n, n, x / n - 1, 0);
  }

  /** A multiple of a page is a multiple of what divides the page. */
  lemma {:induction false} AlignedDown(x: nat, page: nat, unit: nat)
    requires unit > 0 && page > 0 && page % unit == 0 && x % page == 0
    ensures x % unit == 0
  {
    var a, b := x / page, page / unit;
    assert x == a * page && page == b * unit;
    assert a * (b * unit) == (a * b) * unit;
    ModUnique(x, unit, a * b, 0);
  }

  lemma {:induction false} FloorUnique(x: nat, page: nat, f: nat)
    requires page > 0 && f % page == 0 && f <= x < f + page
    ensures Floor(x, page) == f
  {
    ModUnique(x, page, f / page, x - f);
  }
}
