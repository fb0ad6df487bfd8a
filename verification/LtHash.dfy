/** The summation hash of appstate/lthash/lthash.go: 64 words of 16 bits, each
    of which adds and subtracts with wrap-around. The expansion of a value MAC
    into 128 bytes (HKDF) is a parameter. */
module LtHash {

  newtype byte = x: int | 0 <= x < 256
  type Mac = seq<byte>

  const WORDS := 64

  type Word = x: int | 0 <= x < 0x1_0000
  type Lane = s: seq<Word> | |s| == WORDS witness seq(WORDS, _ => 0)
  type Expand = Mac -> Lane

  const ZERO: Lane := seq(WORDS, _ => 0)

  /** Sum of one word over a list of MACs, without wrap-around. */
  ghost function SumAt(expand: Expand, macs: seq<Mac>, w: nat): int
    requires w < WORDS
  {
    if macs == [] then 0
    else SumAt(expand, macs[..|macs| - 1], w) + expand(macs[|macs| - 1])[w]
  }

  /** Sum of one word over the value MACs a map holds, without wrap-around. */
  ghost function TotalAt(expand: Expand, m: map<Mac, Mac>, w: nat): int
    requires w < WORDS
    decreases |m|
  {
    if m == map[] then 0
    else
      var k :| k in m;
      expand(m[k])[w] + TotalAt(expand, m - {k}, w)
  }

  /** The hash that belongs to a set of current values: what the hash has to be
      after any history of mutations that ends with these contents. */
  ghost function HashOf(expand: Expand, m: map<Mac, Mac>): Lane {
    seq(WORDS, w requires 0 <= w < WORDS => (TotalAt(expand, m, w) % 0x1_0000) as Word)
  }

  lemma TotalWithout(expand: Expand, m: map<Mac, Mac>, k: Mac, w: nat)
    requires w < WORDS && k in m
    ensures TotalAt(expand, m, w) == expand(m[k])[w] + TotalAt(expand, m - {k}, w)
    decreases |m|
  {
    var j :| j in m && TotalAt(expand, m, w) == expand(m[j])[w] + TotalAt(expand, m - {j}, w);
    if j != k {
      TotalWithout(expand, m - {j}, k, w);
      TotalWithout(expand, m - {k}, j, w);
      assert m - {j} - {k} == m - {k} - {j};
    }
  }

  /** What setting one index does to the totals. */
  lemma TotalAfterSet(expand: Expand, m: map<Mac, Mac>, k: Mac, v: Mac, w: nat)
    requires w < WORDS
    ensures TotalAt(expand, m[k := v], w)
         == TotalAt(expand, m, w) + expand(v)[w] - (if k in m then expand(m[k])[w] else 0)
  {
    TotalWithout(expand, m[k := v], k, w);
    assert m[k := v] - {k} == m - {k};
    if k in m {
      TotalWithout(expand, m, k, w);
    } else {
      assert m - {k} == m;
    }
  }

  /** What removing one index does to the totals. */
  lemma TotalAfterRemove(expand: Expand, m: map<Mac, Mac>, k: Mac, w: nat)
    requires w < WORDS
    ensures TotalAt(expand, m - {k}, w)
         == TotalAt(expand, m, w) - (if k in m then expand(m[k])[w] else 0)
  {
    if k in m {
      TotalWithout(expand, m, k, w);
    } else {
      assert m - {k} == m;
    }
  }

  lemma EmptyHash(expand: Expand)
    ensures HashOf(expand, map[]) == ZERO
  {
  }

  /** One word of the result of subtracting and adding lists of MACs. */
  ghost function Shifted(expand: Expand, x: int, minus: seq<Mac>, plus: seq<Mac>, w: nat): int
    requires w < WORDS
  {
    (x - SumAt(expand, minus, w) + SumAt(expand, plus, w)) % 0x1_0000
  }

  lemma ModStep(x: int, s: int, y: int)
    ensures ((x + s) % 0x1_0000 + y) % 0x1_0000 == (x + (s + y)) % 0x1_0000
  {
    var q := (x + s) / 0x1_0000;
    assert x + (s + y) == ((x + s) % 0x1_0000 + y) + q * 0x1_0000;
    ModShift((x + s) % 0x1_0000 + y, q);
  }

  lemma ModShift(a: int, q: int)
    ensures (a + q * 0x1_0000) % 0x1_0000 == a % 0x1_0000
  {
    var r, d := a % 0x1_0000, a / 0x1_0000;
    assert a + q * 0x1_0000 == r + (d + q) * 0x1_0000;
  }

  lemma ModDifference(x: int, minus: int, plus: int)
    ensures (x % 0x1_0000 - minus + plus) % 0x1_0000 == (x - minus + plus) % 0x1_0000
  {
    var q := x / 0x1_0000;
    assert x - minus + plus == (x % 0x1_0000 - minus + plus) + q * 0x1_0000;
    ModShift(x % 0x1_0000 - minus + plus, q);
  }

  lemma ModEqualIff(a: int, d: int)
    ensures (a + d) % 0x1_0000 == a % 0x1_0000 <==> d % 0x1_0000 == 0
  {
    var q, r := d / 0x1_0000, d % 0x1_0000;
    assert a + d == (a + r) + q * 0x1_0000;
    ModShift(a + r, q);
  }

  lemma ShiftedTotal(expand: Expand, x: int, y: int, minus: seq<Mac>, plus: seq<Mac>, w: nat)
    requires w < WORDS && y == x - SumAt(expand, minus, w) + SumAt(expand, plus, w)
    ensures Shifted(expand, x % 0x1_0000, minus, plus, w) == y % 0x1_0000
  {
    ModDifference(x, SumAt(expand, minus, w), SumAt(expand, plus, w));
  }

  /** A total that is off by `d` gives the same word exactly if d is zero modulo 2^16. */
  lemma ShiftedIff(expand: Expand, x: int, y: int, d: int, minus: seq<Mac>, plus: seq<Mac>, w: nat)
    requires w < WORDS && y + d == x - SumAt(expand, minus, w) + SumAt(expand, plus, w)
    ensures Shifted(expand, x % 0x1_0000, minus, plus, w) == y % 0x1_0000 <==> d % 0x1_0000 == 0
  {
    ShiftedTotal(expand, x, y + d, minus, plus, w);
    ModEqualIff(y, d);
  }

  method PerformPointwiseWithOverflow(base: array<Word>, input: Lane, subtract: bool)
    requires base.Length == WORDS
    modifies base
    ensures forall w :: 0 <= w < WORDS ==>
      base[w] == (old(base[w]) as int + (if subtract then -(input[w] as int) else input[w] as int)) % 0x1_0000
  {
    for i := 0 to WORDS
      invariant forall w :: 0 <= w < i ==>
        base[w] == (old(base[w]) as int + (if subtract then -(input[w] as int) else input[w] as int)) % 0x1_0000
      invariant forall w :: i <= w < WORDS ==> base[w] == old(base[w])
    {
      var x: int, y: int := base[i], input[i];
      base[i] := (if subtract then x - y else x + y) % 0x1_0000;
    }
  }

  method MultipleOp(expand: Expand, base: array<Word>, input: seq<Mac>, subtract: bool)
    requires base.Length == WORDS
    modifies base
    ensures forall w :: 0 <= w < WORDS ==>
      base[w] == (old(base[w]) as int + (if subtract then -SumAt(expand, input, w) else SumAt(expand, input, w))) % 0x1_0000
  {
    for n := 0 to |input|
      invariant forall w :: 0 <= w < WORDS ==>
        base[w] == (old(base[w]) as int + (if subtract then -SumAt(expand, input[..n], w) else SumAt(expand, input[..n], w))) % 0x1_0000
    {
      ghost var before := base[..];
      PerformPointwiseWithOverflow(base, expand(input[n]), subtract);
      assert input[..n + 1][..n] == input[..n];
      forall w | 0 <= w < WORDS
        ensures base[w] == (old(base[w]) as int + (if subtract then -SumAt(expand, input[..n + 1], w) else SumAt(expand, input[..n + 1], w))) % 0x1_0000
      {
        var s := SumAt(expand, input[..n], w);
        var y := expand(input[n])[w];
        assert SumAt(expand, input[..n + 1], w) == s + y;
        assert before[w] == (old(base[w]) as int + (if subtract then -s else s)) % 0x1_0000;
        ModStep(old(base[w]), if subtract then -s else s, if subtract then -y else y);
      }
    }
    assert input[..|input|] == input;
  }

  method SubtractThenAddInPlace(expand: Expand, base: array<Word>, subtract: seq<Mac>, add: seq<Mac>)
    requires base.Length == WORDS
    modifies base
    ensures forall w :: 0 <= w < WORDS ==> base[w] == Shifted(expand, old(base[w]), subtract, add, w)
  {
    MultipleOp(expand, base, subtract, true);
    ghost var mid := base[..];
    MultipleOp(expand, base, add, false);
    forall w | 0 <= w < WORDS
      ensures base[w] == Shifted(expand, old(base[w]), subtract, add, w)
    {
      assert mid[w] == (old(base[w]) + -SumAt(expand, subtract, w)) % 0x1_0000;
      ModStep(old(base[w]), -SumAt(expand, subtract, w), SumAt(expand, add, w));
    }
  }
}
