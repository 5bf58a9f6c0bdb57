/** How aurora.mpich.miniapps/src/include/devices.hpp picks the devices of
    one MPI rank: the platform lookup by name, the optional split of every GPU
    into its tiles, and the compact rank-to-device distribution. Devices are
    opaque values of a type parameter; the SYCL runtime queries are inputs. */
module Devices {
  import opened Common
  import opened Text

  /** A platform as the runtime lists it. */
  datatype Platform<D> = Platform(name: string, devices: seq<D>)

  /** A GPU and the outcome of asking it for its NUMA tiles: `None` when the
      runtime reports that the partition is not supported. */
  datatype Gpu<D> = Gpu(device: D, tiles: Option<seq<D>>)

  // ---------------------------------------------------------------------------
  // get_devices(target)
  // ---------------------------------------------------------------------------

  /** The name test of the lookup: the LAST occurrence of `target` in the
      name is at position 0. */
  predicate NameMatches(name: string, target: string)
  {
    RFind(name, target) == Some(0)
  }

  /** The devices of the first matching platform, or none. */
  function PlatformDevices<D>(platforms: seq<Platform<D>>, target: string): (r: seq<D>)
    ensures (forall k :: 0 <= k < |platforms| ==> !NameMatches(platforms[k].name, target)) ==> r == []
    ensures forall k :: 0 <= k < |platforms| && NameMatches(platforms[k].name, target) &&
                        (forall j :: 0 <= j < k ==> !NameMatches(platforms[j].name, target))
                        ==> r == platforms[k].devices
  {
    if |platforms| == 0 then []
    else if NameMatches(platforms[0].name, target) then platforms[0].devices
    else
      var rest := PlatformDevices(platforms[1..], target);
      assert forall k :: 1 <= k < |platforms| ==> platforms[1..][k - 1] == platforms[k];
      rest
  }

  /** The name test is a prefix test whenever the target does not occur again
      later in the name. */
  lemma NameMatchesPrefix(name: string, target: string)
    ensures NameMatches(name, target) <==>
              StartsWith(name, target) && forall j: nat :: 0 < j ==> !OccursAt(name, target, j)
  {
    RFindIsZero(name, target);
  }

  lemma IntelPlatformMatches()
    ensures NameMatches("Intel(R) OpenCL HD Graphics", "Intel(R) OpenCL")
    ensures !NameMatches("Intel(R) Level-Zero", "Intel(R) OpenCL")
  {
    var name, target := "Intel(R) OpenCL HD Graphics", "Intel(R) OpenCL";
    assert StartsWith(name, target) by { assert name[..|target|] == target; }
    assert forall j :: 0 < j < |name| ==> name[j] != 'I';
    forall j: nat | 0 < j
      ensures !OccursAt(name, target, j)
    {
      if j + |target| <= |name| {
        assert name[j..j + |target|][0] == name[j];
      }
    }
    NameMatchesPrefix(name, target);
    var other := "Intel(R) Level-Zero";
    assert other[9] != target[9];
    assert !StartsWith(other, target);
    NameMatchesPrefix(other, target);
  }

  // ---------------------------------------------------------------------------
  // Device fission
  // ---------------------------------------------------------------------------

  /** Every GPU replaced in order by its tiles, or kept whole when it cannot
      be split. */
  function Fission<D>(gpus: seq<Gpu<D>>): (all: seq<D>)
  {
    if |gpus| == 0 then []
    else Fission(gpus[..|gpus| - 1]) + Units(gpus[|gpus| - 1])
  }

  function Units<D>(g: Gpu<D>): seq<D>
  {
    if g.tiles.Some? then g.tiles.value else [g.device]
  }

  function UnitCount<D>(gpus: seq<Gpu<D>>): nat
  {
    if |gpus| == 0 then 0 else UnitCount(gpus[..|gpus| - 1]) + |Units(gpus[|gpus| - 1])|
  }

  /** Fission distributes over concatenation: the tiles of earlier GPUs come
      first. */
  lemma {:induction false} FissionAppend<D>(a: seq<Gpu<D>>, b: seq<Gpu<D>>)
    ensures Fission(a + b) == Fission(a) + Fission(b)
    decreases |b|
  {
    if |b| == 0 {
      assert a + b == a;
    } else {
      var n := |b| - 1;
      assert (a + b)[..|a + b| - 1] == a + b[..n];
      FissionAppend(a, b[..n]);
    }
  }

  lemma {:induction false} FissionCount<D>(gpus: seq<Gpu<D>>)
    ensures |Fission(gpus)| == UnitCount(gpus)
  {
    if |gpus| > 0 {
      FissionCount(gpus[..|gpus| - 1]);
    }
  }

  /** Without any splittable GPU, fission changes nothing. */
  lemma {:induction false} FissionWithoutTiles<D>(gpus: seq<Gpu<D>>)
    requires forall k :: 0 <= k < |gpus| ==> gpus[k].tiles.None?
    ensures Fission(gpus) == seq(|gpus|, k requires 0 <= k < |gpus| => gpus[k].device)
  {
    if |gpus| > 0 {
      var n := |gpus| - 1;
      assert forall k :: 0 <= k < n ==> gpus[..n][k] == gpus[k];
      FissionWithoutTiles(gpus[..n]);
    }
  }

  /** The device list of the Intel branch. */
  function AllDevices<D>(gpus: seq<Gpu<D>>, fission: bool): seq<D>
  {
    if fission then Fission(gpus) else seq(|gpus|, k requires 0 <= k < |gpus| => gpus[k].device)
  }

  // ---------------------------------------------------------------------------
  // The rank-to-device split
  // ---------------------------------------------------------------------------

  /** `get_devices(rank, size)` on the device list `all`. With fewer devices
      than ranks the ranks share devices round-robin; otherwise each rank takes
      its own block of `|all| / size` consecutive devices. */
  function Distribute<D>(all: seq<D>, rank: nat, size: nat): (r: seq<D>)
    requires rank < size
    ensures |all| == 0 ==> r == []
    ensures 0 < |all| < size ==> r == [all[rank % |all|]]
    ensures |all| >= size ==> |r| == |all| / size
    ensures |all| >= size ==>
              && BlockStart(|all|, size, rank) + |r| <= |all|
              && forall j :: 0 <= j < |r| ==> r[j] == all[BlockStart(|all|, size, rank) + j]
  {
    if |all| == 0 then []
    else if |all| < size then [all[rank % |all|]]
    else
      var lo := BlockStart(|all|, size, rank);
      SliceInBounds(|all|, size, rank);
      all[lo..lo + |all| / size]
  }

  /** Index of the first device of a rank's block: `rank * (n / size)`. */
  function BlockStart(n: nat, size: nat, rank: nat): nat
    requires size > 0
  {
    rank * (n / size)
  }

  /** The block of every rank lies inside the list. */
  lemma SliceInBounds(n: nat, size: nat, rank: nat)
    requires rank < size && n >= size
    ensures BlockStart(n, size, rank) + n / size <= n
  {
    var k := n / size;
    assert k * size <= n;
    MulLeq(rank + 1, size, k);
    assert BlockStart(n, size, rank) + k == (rank + 1) * k;
  }

  lemma MulLeq(a: nat, b: nat, k: nat)
    requires a <= b
    ensures a * k <= b * k
  {
  }

  /** Device `i` of the list goes to rank `i / k` in block mode, and the
      last `|all| % size` devices to nobody. */
  predicate Owns(n: nat, size: nat, rank: nat, i: nat)
    requires size > 0
  {
    BlockStart(n, size, rank) <= i < BlockStart(n, size, rank) + n / size
  }

  lemma OwnerIsQuotient(n: nat, size: nat, rank: nat, i: nat)
    requires rank < size && n >= size
    ensures Owns(n, size, rank, i) <==> i < size * (n / size) && i / (n / size) == rank
  {
    var k := n / size;
    assert k >= 1 by {
      assert k * size + n % size == n;
    }
    if Owns(n, size, rank, i) {
      DivModUnique(i, k, rank, i - rank * k);
      MulLeq(rank + 1, size, k);
    } else if i < size * k {
      var q := i / k;
      assert q * k <= i < q * k + k;
      assert q != rank;
    }
  }

  /** Blocks of different ranks never overlap. */
  lemma BlocksDisjoint(n: nat, size: nat, r1: nat, r2: nat, i: nat)
    requires r1 < size && r2 < size && n >= size
    requires Owns(n, size, r1, i) && Owns(n, size, r2, i)
    ensures r1 == r2
  {
    OwnerIsQuotient(n, size, r1, i);
    OwnerIsQuotient(n, size, r2, i);
  }

  /** In block mode the devices past `size * (n / size)` belong to no rank. */
  lemma TrailingUnassigned(n: nat, size: nat, rank: nat, i: nat)
    requires rank < size && n >= size && size * (n / size) <= i
    ensures !Owns(n, size, rank, i)
  {
    OwnerIsQuotient(n, size, rank, i);
  }

  /** With fewer devices than ranks, every device is used by some rank. */
  lemma SharedModeCoversAll<D>(all: seq<D>, size: nat, i: nat)
    requires i < |all| < size
    ensures Distribute(all, i, size) == [all[i]]
  {
  }

  /** The branch for other compilers: one device, `gpus[rank % |gpus|]`.
      An empty list is a division by zero in the source and `None` here. */
  function SingleDevice<D>(gpus: seq<D>, rank: nat): (r: Option<D>)
    ensures r.None? <==> |gpus| == 0
    ensures r.Some? ==> exists k :: 0 <= k < |gpus| && gpus[k] == r.value && k == rank % |gpus|
  {
    if |gpus| == 0 then None else Some(gpus[rank % |gpus|])
  }

  /** The whole Intel branch: fission (when asked), then the split. */
  function RankDevices<D>(platforms: seq<Platform<D>>, tiles: D -> Option<seq<D>>,
                          rank: nat, size: nat, fission: bool): seq<D>
    requires rank < size
  {
    var devs := PlatformDevices(platforms, "Intel(R) OpenCL");
    var gpus := seq(|devs|, k requires 0 <= k < |devs| => Gpu(devs[k], tiles(devs[k])));
    Distribute(AllDevices(gpus, fission), rank, size)
  }

  /** Without fission every device handed to a rank is one of the matching
      platform's; with no matching platform a rank gets nothing. */
  lemma RankDevicesFromPlatform<D>(platforms: seq<Platform<D>>, tiles: D -> Option<seq<D>>,
                                   rank: nat, size: nat, fission: bool)
    requires rank < size
    ensures var r := RankDevices(platforms, tiles, rank, size, fission);
            && (!fission ==> forall j :: 0 <= j < |r| ==> r[j] in PlatformDevices(platforms, "Intel(R) OpenCL"))
            && (|PlatformDevices(platforms, "Intel(R) OpenCL")| == 0 ==> r == [])
  {
    var devs := PlatformDevices(platforms, "Intel(R) OpenCL");
    var gpus := seq(|devs|, k requires 0 <= k < |devs| => Gpu(devs[k], tiles(devs[k])));
    var all := AllDevices(gpus, fission);
    var r := Distribute(all, rank, size);
    if !fission {
      assert all == devs;
      forall j | 0 <= j < |r|
        ensures r[j] in devs
      {
        if |all| >= size {
          SliceInBounds(|all|, size, rank);
        }
      }
    }
    if |devs| == 0 {
      assert |gpus| == 0;
      assert |all| == 0;
    }
  }
}
