/** The names under which segments are stored, in the Go store and in its specification. */
module BlobNames {
  import opened Decimal

  /** `fmt.Sprintf("data/%04d.json", i)`. */
  function BlobKey(i: nat): string {
    "data/" + Padded(i) + ".json"
  }

  /** `"data/" + format_with_leading_zeros(i) + ".sst"`. */
  function Filename(i: nat): string {
    "data/" + Padded(i) + ".sst"
  }

  lemma Unwrapped(prefix: string, a: string, b: string, suffix: string)
    requires prefix + a + suffix == prefix + b + suffix
    ensures a == b
  {
    var s := prefix + a + suffix;
    assert a == s[|prefix|..|s| - |suffix|];
    assert b == s[|prefix|..|s| - |suffix|];
  }

  lemma BlobKeyInjective(i: nat, j: nat)
    ensures BlobKey(i) == BlobKey(j) <==> i == j
  {
    if BlobKey(i) == BlobKey(j) {
      Unwrapped("data/", Padded(i), Padded(j), ".json");
      PaddedDenotes(i);
      PaddedDenotes(j);
    }
  }

  lemma FilenameInjective(i: nat, j: nat)
    ensures Filename(i) == Filename(j) <==> i == j
  {
    if Filename(i) == Filename(j) {
      Unwrapped("data/", Padded(i), Padded(j), ".sst");
      PaddedDenotes(i);
      PaddedDenotes(j);
    }
  }

  /** Ascending names are ascending numbers exactly while the smaller number does not exceed the
      larger one cut to the same number of digits. */
  lemma BlobKeyOrderIff(m: nat, n: nat)
    requires m < n
    ensures |Padded(m)| <= |Padded(n)|
    ensures Before(BlobKey(m), BlobKey(n)) <==> m <= n / Power10(|Padded(n)| - |Padded(m)|)
  {
    PaddedOrderIff(m, n);
    PaddedDenotes(m);
    PaddedDenotes(n);
    WrappedOrder("data/", Padded(m), Padded(n), ".json");
  }

  /** In particular while both have at most four digits. */
  lemma BlobKeyOrder(m: nat, n: nat)
    requires m < n < 10000
    ensures Before(BlobKey(m), BlobKey(n))
  {
    PaddedWidth(m);
    PaddedWidth(n);
    BlobKeyOrderIff(m, n);
  }
}
