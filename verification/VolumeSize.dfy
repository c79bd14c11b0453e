/** The size of an HFS volume that holds given files: the allocation block grows
    with the volume, so the size is found by trying (provisioning/installers.py:
    159-177). The factor 1.08 is taken exactly, as 108/100. */
module VolumeSize {
  import opened Numbers

  /** An item: its two fork lengths, or none for a folder. */
  datatype Item = Folder | File(data: nat, rsrc: nat)

  function Sizes(items: seq<Item>): seq<nat> {
    if items == [] then []
    else
      var n := |items| - 1;
      Sizes(items[..n]) + (if items[n].File? then [items[n].data, items[n].rsrc] else [])
  }

  /** -(-a // b). */
  function Ceil(a: nat, b: nat): nat
    requires b > 0
  {
    (a + b - 1) / b
  }

  /** The allocation block of a volume of MB megabytes. */
  function Block(mb: nat): (block: nat)
    ensures block > 0
  {
    var b := Ceil(Ceil(mb * 1048576, 65535), 512) * 512;
    if b < 512 then 512 else b
  }

  /** What a fork takes up. */
  function Allocated(n: nat, block: nat): nat
    requires block > 0
  {
    Ceil(n, block) * block
  }

  function AllocatedAll(sizes: seq<nat>, block: nat): nat
    requires block > 0
  {
    if sizes == [] then 0
    else AllocatedAll(sizes[..|sizes| - 1], block) + Allocated(sizes[|sizes| - 1], block)
  }

  /** The catalog takes 600 bytes an item. */
  function Need(items: seq<Item>, mb: nat): nat {
    AllocatedAll(Sizes(items), Block(mb)) + |items| * 600
  }

  function Want(items: seq<Item>, mb: nat): nat {
    Need(items, mb) * 108 / 104857600 + 32
  }

  /** The size tried in the K-th pass, had none before it been enough. */
  function Tried(items: seq<Item>, k: nat): nat {
    if k == 0 then 64 else Want(items, Tried(items, k - 1))
  }

  /** Forks that take up anything. */
  function NonEmpty(sizes: seq<nat>): nat {
    if sizes == [] then 0
    else NonEmpty(sizes[..|sizes| - 1]) + (if sizes[|sizes| - 1] > 0 then 1 else 0)
  }

  /** Few enough forks for the search to end: at most 60680. */
  predicate FewForks(items: seq<Item>) {
    108 * NonEmpty(Sizes(items)) < 6553500
  }

  // ------------------------------------------------------------------- arithmetic

  /** A volume has at most 65535 allocation blocks, each no larger than that asks. */
  lemma BlockBounds(mb: nat)
    ensures mb * 1048576 <= 65535 * Block(mb) <= mb * 1048576 + 65535 * 513
  {
  }

  /** It is of whole sectors, one at least. */
  lemma BlockSectors(mb: nat)
    ensures Block(mb) % 512 == 0 && Block(mb) >= 512
  {
    hide Ceil;
  }

  lemma CeilBounds(a: nat, b: nat)
    requires b > 0
    ensures a <= Ceil(a, b) * b < a + b
    ensures a > 0 ==> Ceil(a, b) >= 1
    ensures a == 0 ==> Ceil(a, b) == 0
  {
    assert a + b - 1 == (a + b - 1) / b * b + (a + b - 1) % b;
    QuotientIsZero(a + b - 1, b);
  }

  lemma QuotientIsZero(x: nat, b: nat)
    requires b > 0
    ensures x / b == 0 <==> x < b
  {
    var q := x / b;
    assert x == q * b + x % b;
    if q >= 1 {
      AtLeastOnce(q, b);
    } else {
      assert q * b == 0;
    }
  }

  lemma AtLeastOnce(q: nat, b: nat)
    requires q >= 1
    ensures q * b >= b
  {
    assert q * b == (q - 1) * b + b;
  }

  /** A fork takes up its length and less than a block more; one block at least. */
  lemma AllocatedBounds(n: nat, block: nat)
    requires block > 0
    ensures n <= Allocated(n, block) <= n + (if n > 0 then block else 0)
    ensures n > 0 ==> Allocated(n, block) >= block
  {
    CeilBounds(n, block);
    if n > 0 {
      AtLeastOnce(Ceil(n, block), block);
    } else {
      assert Ceil(n, block) * block == 0;
    }
  }

  lemma {:induction false} AllocatedAllBounds(sizes: seq<nat>, block: nat)
    requires block > 0
    ensures NonEmpty(sizes) * block <= AllocatedAll(sizes, block) <= Sum(sizes) + NonEmpty(sizes) * block
  {
    hide Allocated;
    if sizes != [] {
      var n := |sizes| - 1;
      AllocatedAllBounds(sizes[..n], block);
      AllocatedBounds(sizes[n], block);
      assert (NonEmpty(sizes[..n]) + 1) * block == NonEmpty(sizes[..n]) * block + block;
    }
  }

  /** No size that is not enough exceeds this. */
  function Bound(items: seq<Item>): nat {
    var sizes := Sizes(items);
    108 * 65535 * (Sum(sizes) + 600 * |items|) + 108 * 65535 * 513 * NonEmpty(sizes) + 31 * 104857600 * 65535
  }

  lemma Slope(forks: nat, block: nat, mb: nat)
    requires 65535 * block <= mb * 1048576 + 65535 * 513
    ensures 65535 * (forks * block) <= forks * mb * 1048576 + forks * (65535 * 513)
  {
    assert forks * (65535 * block) <= forks * (mb * 1048576 + 65535 * 513) by {
      Times(forks, 65535 * block, mb * 1048576 + 65535 * 513);
    }
    assert forks * (65535 * block) == 65535 * (forks * block);
    assert forks * (mb * 1048576 + 65535 * 513) == forks * (mb * 1048576) + forks * (65535 * 513);
    assert forks * (mb * 1048576) == forks * mb * 1048576;
  }

  lemma Times(k: nat, a: nat, b: nat)
    requires a <= b
    ensures k * a <= k * b
  {
    assert k * b == k * a + k * (b - a);
  }

  /** A size that is not enough is below the bound, if the forks are few enough. */
  lemma RaisesBelowBound(items: seq<Item>, mb: nat)
    requires FewForks(items) && Want(items, mb) > mb
    ensures mb <= Bound(items)
  {
    hide Block, AllocatedAll, Sum, NonEmpty, Sizes;
    var sizes := Sizes(items);
    var block, forks, all := Block(mb), NonEmpty(sizes), AllocatedAll(sizes, Block(mb));
    BlockBounds(mb);
    AllocatedAllBounds(sizes, block);
    Slope(forks, block, mb);
    assert 108 * (all + |items| * 600) >= (mb - 31) * 104857600;
    assert 65535 * all <= 65535 * Sum(sizes) + forks * mb * 1048576 + forks * (65535 * 513);
    assert 65535 * 108 * (all + |items| * 600) >= 65535 * (mb - 31) * 104857600;
    FewTimes(forks, mb);
  }

  lemma FewTimes(forks: nat, mb: nat)
    requires 108 * forks < 6553500
    ensures 108 * (forks * mb * 1048576) + mb * 1048576 <= 65535 * mb * 104857600
  {
    Times(mb, 108 * forks + 1, 6553500);
    assert mb * (108 * forks + 1) == 108 * (forks * mb) + mb;
  }

  // --------------------------------------------------------------------- the loop

  /** volume_mb, for items whose forks are few enough for it to end: the size is
      enough, the first of those tried to be so. */
  method VolumeMb(items: seq<Item>) returns (mb: nat)
    requires FewForks(items)
    ensures Want(items, mb) <= mb && mb * 1048576 <= 65535 * Block(mb)
    ensures exists k :: FirstEnough(items, k, mb)
  {
    hide Want, Bound, FewForks, Block;
    mb := 64;
    ghost var k := 0;
    while Want(items, mb) > mb
      invariant mb == Tried(items, k)
      invariant forall j :: 0 <= j < k ==> Want(items, Tried(items, j)) > Tried(items, j)
      decreases Bound(items) - mb
    {
      RaisesBelowBound(items, mb);
      mb := Want(items, mb);
      k := k + 1;
    }
    BlockBounds(mb);
    assert FirstEnough(items, k, mb);
  }

  predicate FirstEnough(items: seq<Item>, k: nat, mb: nat) {
    && mb == Tried(items, k) && Want(items, mb) <= mb
    && (forall j :: 0 <= j < k ==> Want(items, Tried(items, j)) > Tried(items, j))
  }

  /** No items take 64 MB, the first size tried. */
  lemma NothingTakes64()
    ensures FirstEnough([], 0, 64)
  {
    assert AllocatedAll([], Block(64)) == 0;
  }

  /** A size is enough exactly if every fork in whole blocks and 600 bytes an item
      leave 31 MB and 8 percent to spare. */
  lemma EnoughIff(items: seq<Item>, mb: nat)
    ensures Want(items, mb) <= mb <==>
            (AllocatedAll(Sizes(items), Block(mb)) + 600 * |items|) * 108 < (mb - 31) * 104857600
  {
    hide AllocatedAll, Block;
  }

  /** So it has room for every fork and the catalog. */
  lemma EnoughIsRoom(items: seq<Item>, mb: nat)
    requires Want(items, mb) <= mb
    ensures AllocatedAll(Sizes(items), Block(mb)) + 600 * |items| <= mb * 1048576
    ensures Sum(Sizes(items)) + 600 * |items| <= mb * 1048576
  {
    hide AllocatedAll, Block;
    AtLeastSum(Sizes(items), Block(mb));
  }

  lemma {:induction false} AtLeastSum(sizes: seq<nat>, block: nat)
    requires block > 0
    ensures AllocatedAll(sizes, block) >= Sum(sizes)
  {
    hide Allocated;
    if sizes != [] {
      AtLeastSum(sizes[..|sizes| - 1], block);
      AllocatedBounds(sizes[|sizes| - 1], block);
    }
  }

  /** With more forks every size asks for 32 MB more, whatever is in them. */
  lemma TooManyForksRaise(items: seq<Item>, mb: nat)
    requires !FewForks(items)
    ensures Want(items, mb) >= mb + 32
  {
    hide Block, AllocatedAll, NonEmpty, Sizes, Sum;
    var forks, block := NonEmpty(Sizes(items)), Block(mb);
    BlockBounds(mb);
    AllocatedAllBounds(Sizes(items), block);
    Times(forks, mb * 1048576, 65535 * block);
    assert forks * (65535 * block) == 65535 * (forks * block);
    assert forks * (mb * 1048576) == forks * mb * 1048576;
    Times(mb, 6553500, 108 * forks);
    assert mb * (108 * forks) == 108 * (forks * mb);
    assert 65535 * (Need(items, mb) * 108) >= 65535 * mb * 104857600;
    assert Need(items, mb) * 108 >= mb * 104857600;
  }

  /** Every pass that is not the last raises the size. */
  lemma {:induction false} TriedGrows(items: seq<Item>, k: nat)
    requires forall j :: 0 <= j < k ==> Want(items, Tried(items, j)) > Tried(items, j)
    ensures Tried(items, k) >= 64 + k
  {
    hide Want;
    if k > 0 {
      TriedGrows(items, k - 1);
    }
  }

  /** The search ends if and only if the items have at most 60680 forks that are
      not empty. */
  lemma EndsIff(items: seq<Item>)
    ensures (exists k: nat :: Enough(items, k)) <==> FewForks(items)
    ensures FewForks(items) <==> NonEmpty(Sizes(items)) <= 60680
  {
    hide Want, Bound, Tried, Sizes;
    if FewForks(items) {
      if forall k: nat :: !Enough(items, k) {
        var k := Bound(items) + 1;
        forall j: nat | j < k
          ensures Want(items, Tried(items, j)) > Tried(items, j)
        {
          assert !Enough(items, j);
        }
        TriedGrows(items, k);
        assert !Enough(items, k);
        RaisesBelowBound(items, Tried(items, k));
      }
    } else {
      forall k: nat
        ensures !Enough(items, k)
      {
        TooManyForksRaise(items, Tried(items, k));
      }
    }
  }

  /** N files of one byte, no resource fork. */
  function Bytewise(n: nat): seq<Item> {
    seq(n, _ => File(1, 0))
  }

  lemma {:induction false} BytewiseForks(n: nat)
    ensures NonEmpty(Sizes(Bytewise(n))) == n
  {
    if n > 0 {
      BytewiseForks(n - 1);
      assert Bytewise(n)[..n - 1] == Bytewise(n - 1);
      NonEmptyTwo(Sizes(Bytewise(n - 1)), 1, 0);
    }
  }

  lemma NonEmptyTwo(sizes: seq<nat>, a: nat, b: nat)
    ensures NonEmpty(sizes + [a, b]) == NonEmpty(sizes) + (if a > 0 then 1 else 0) + (if b > 0 then 1 else 0)
  {
    var both := sizes + [a, b];
    assert both[..|sizes| + 1] == sizes + [a];
    assert (sizes + [a])[..|sizes|] == sizes;
  }

  /** 60681 files of one byte each: no pass is ever enough. One file fewer and
      the search ends. */
  lemma NeverEnough(k: nat)
    ensures !Enough(Bytewise(60681), k)
    ensures exists j: nat :: Enough(Bytewise(60680), j)
  {
    hide Enough, FewForks, Bytewise;
    BytewiseForks(60681);
    BytewiseForks(60680);
    EndsIff(Bytewise(60681));
    EndsIff(Bytewise(60680));
  }

  /** The K-th pass finds its size enough. */
  predicate Enough(items: seq<Item>, k: nat) {
    Want(items, Tried(items, k)) <= Tried(items, k)
  }
}
