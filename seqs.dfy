/** Small facts about lists and counts shared by the tools. */
module Seqs {

  lemma Assoc<T>(a: seq<T>, b: seq<T>, c: seq<T>)
    ensures a + b + c == a + (b + c)
  {
  }

  lemma AppendThree<T>(a: seq<T>, b: seq<T>, c: seq<T>, d: seq<T>)
    ensures a + b + c + d == a + (b + c + d)
  {
  }

  /** One more group of `c` items: `n` groups hold `(n - 1) * c + c` items. */
  lemma MulStep(n: nat, c: nat)
    requires n > 0
    ensures (n - 1) * c + c == n * c
  {
  }

  /** `for x in items: target.append(x)`. */
  method AppendAll<T>(target: seq<T>, items: seq<T>) returns (r: seq<T>)
    ensures r == target + items
  {
    r := target;
    for j := 0 to |items|
      invariant r == target + items[..j]
    {
      assert items[..j + 1] == items[..j] + [items[j]];
      r := r + [items[j]];
    }
    assert items[..|items|] == items;
  }
}
