/** Per-app sizes, the disk total and the unmapped rest, and why they add up. */
module CacheSizes {
  import opened Options
  import opened Sums

  /** A mapping row with both of its ids read as integers. */
  datatype Ownership = Ownership(app: nat, depot: nat)

  function BytesOf(disk: map<nat, nat>, depot: nat): nat {
    if depot in disk then disk[depot] else 0
  }

  function DepotsOf(rows: set<Ownership>, app: nat): set<nat> {
    set r | r in rows && r.app == app :: r.depot
  }

  function Apps(rows: set<Ownership>): set<nat> {
    set r | r in rows :: r.app
  }

  function Mapped(rows: set<Ownership>): set<nat> {
    set r | r in rows :: r.depot
  }

  function Owners(rows: set<Ownership>, depot: nat): set<Ownership> {
    set r | r in rows && r.depot == depot
  }

  function Present(depots: set<nat>, disk: map<nat, nat>): map<nat, nat> {
    map d | d in depots && d in disk :: disk[d]
  }

  ghost function SizeOf(depots: set<nat>, disk: map<nat, nat>): nat {
    Sum(Present(depots, disk))
  }

  lemma NothingPresent(depots: set<nat>, disk: map<nat, nat>)
    requires depots !! disk.Keys
    ensures SizeOf(depots, disk) == 0
  {
    assert Present(depots, disk) == map[];
  }

  /** The nullable size of an app: nothing when none of its depots is on disk. */
  ghost function AppSize(depots: set<nat>, disk: map<nat, nat>): Option<nat> {
    if depots !! disk.Keys then None else Some(SizeOf(depots, disk))
  }

  lemma SizeExtend(depots: set<nat>, disk: map<nat, nat>, d: nat)
    requires d !in depots
    ensures SizeOf(depots + {d}, disk) == SizeOf(depots, disk) + BytesOf(disk, d)
  {
    var was, now := Present(depots, disk), Present(depots + {d}, disk);
    if d in disk {
      SumRemove(now, d);
      assert now - {d} == was;
    } else {
      assert now == was;
    }
  }

  /** `app_size_bytes`. */
  method AppSizeBytes(depots: set<nat>, disk: map<nat, nat>) returns (size: Option<nat>)
    ensures size == AppSize(depots, disk)
  {
    var total, anyCached := 0, false;
    var todo := depots;
    NothingPresent(depots - todo, disk);
    while todo != {}
      invariant todo <= depots
      invariant total == SizeOf(depots - todo, disk)
      invariant anyCached <==> !(depots - todo !! disk.Keys)
      decreases |todo|
    {
      var d :| d in todo;
      SizeExtend(depots - todo, disk, d);
      assert depots - (todo - {d}) == depots - todo + {d};
      todo := todo - {d};
      if d in disk {
        anyCached := true;
        total := total + disk[d];
      }
    }
    assert depots - todo == depots;
    size := if anyCached then Some(total) else None;
  }

  datatype Summary = Summary(total: nat, sizes: map<nat, nat>, unmapped: set<nat>, unmappedBytes: nat)

  ghost predicate Summarises(s: Summary, rows: set<Ownership>, disk: map<nat, nat>) {
    && s.total == SizeOf(disk.Keys, disk)
    && (forall a :: a in s.sizes <==> a in Apps(rows) && AppSize(DepotsOf(rows, a), disk).Some?)
    && (forall a :: a in s.sizes ==> s.sizes[a] == SizeOf(DepotsOf(rows, a), disk))
    && s.unmapped == disk.Keys - Mapped(rows)
    && s.unmappedBytes == SizeOf(disk.Keys - Mapped(rows), disk)
  }

  method SumBytes(depots: set<nat>, disk: map<nat, nat>) returns (total: nat)
    requires depots <= disk.Keys
    ensures total == SizeOf(depots, disk)
  {
    total := 0;
    var todo := depots;
    NothingPresent(depots - todo, disk);
    while todo != {}
      invariant todo <= depots
      invariant total == SizeOf(depots - todo, disk)
      decreases |todo|
    {
      var d :| d in todo;
      SizeExtend(depots - todo, disk, d);
      assert depots - (todo - {d}) == depots - todo + {d};
      todo := todo - {d};
      total := total + disk[d];
    }
    assert depots - todo == depots;
  }

  lemma WholeDisk(disk: map<nat, nat>)
    ensures SizeOf(disk.Keys, disk) == Sum(disk)
  {
    assert Present(disk.Keys, disk) == disk;
  }

  /** The apps with a size are those with a depot on disk. */
  lemma SizedApps(rows: set<Ownership>, disk: map<nat, nat>)
    ensures forall a :: a in Apps(rows) && AppSize(DepotsOf(rows, a), disk).Some?
                   <==> exists r :: r in rows && r.app == a && r.depot in disk
  {
    forall a ensures a in Apps(rows) && AppSize(DepotsOf(rows, a), disk).Some? <==> exists r :: r in rows && r.app == a && r.depot in disk
    {
      if AppSize(DepotsOf(rows, a), disk).Some? {
        var d :| d in DepotsOf(rows, a) && d in disk;
      }
      if r :| r in rows && r.app == a && r.depot in disk {
        assert r.depot in DepotsOf(rows, a) && r.depot in disk.Keys;
      }
    }
  }

  lemma SummaryMeans(s: Summary, rows: set<Ownership>, disk: map<nat, nat>)
    requires Summarises(s, rows, disk)
    ensures s.total == Sum(disk)
    ensures forall a :: a in s.sizes <==> exists r :: r in rows && r.app == a && r.depot in disk
    ensures forall d :: d in s.unmapped <==> d in disk && forall r :: r in rows ==> r.depot != d
  {
    WholeDisk(disk);
    SizedApps(rows, disk);
    hide AppSize, Apps, DepotsOf, SizeOf;
  }

  /** `build_cache_summary` before the consumers are sorted and cut to ten. */
  method BuildCacheSummary(rows: set<Ownership>, disk: map<nat, nat>) returns (s: Summary)
    ensures Summarises(s, rows, disk)
    ensures s.total == Sum(disk)
    ensures forall a :: a in s.sizes <==> exists r :: r in rows && r.app == a && r.depot in disk
    ensures forall d :: d in s.unmapped <==> d in disk && forall r :: r in rows ==> r.depot != d
  {
    var total := SumBytes(disk.Keys, disk);
    var sizes: map<nat, nat> := map[];
    var apps := Apps(rows);
    var todo := apps;
    hide DepotsOf, SizeOf;
    while todo != {}
      invariant todo <= apps
      invariant forall a :: a in sizes <==> a in apps - todo && AppSize(DepotsOf(rows, a), disk).Some?
      invariant forall a :: a in sizes ==> sizes[a] == SizeOf(DepotsOf(rows, a), disk)
      decreases |todo|
    {
      var a :| a in todo;
      todo := todo - {a};
      var size := AppSizeBytes(DepotsOf(rows, a), disk);
      if size.Some? {
        sizes := sizes[a := size.value];
      }
    }
    var unmapped := disk.Keys - Mapped(rows);
    var unmappedBytes := SumBytes(unmapped, disk);
    s := Summary(total, sizes, unmapped, unmappedBytes);
    assert apps - todo == apps;
    hide Apps, Mapped, AppSize;
    assert Summarises(s, rows, disk);
    hide Summarises;
    SummaryMeans(s, rows, disk);
  }

  // ---------------------------------------------------------------- conservation

  function Weights(rows: set<Ownership>, disk: map<nat, nat>): map<Ownership, nat> {
    map r | r in rows :: BytesOf(disk, r.depot)
  }

  ghost function RowSum(rows: set<Ownership>, disk: map<nat, nat>): nat {
    Sum(Weights(rows, disk))
  }

  lemma RowSumSplit(rows: set<Ownership>, part: set<Ownership>, disk: map<nat, nat>)
    requires part <= rows
    ensures RowSum(rows, disk) == RowSum(part, disk) + RowSum(rows - part, disk)
  {
    var all := Weights(rows, disk);
    SumSplit(all, part);
    assert (map r | r in all && r in part :: all[r]) == Weights(part, disk);
    assert all - part == Weights(rows - part, disk);
  }

  function Group(rows: set<Ownership>, key: Ownership -> nat, k: nat): set<Ownership> {
    set r | r in rows && key(r) == k
  }

  ghost function Groups(rows: set<Ownership>, disk: map<nat, nat>, key: Ownership -> nat, keys: set<nat>): map<nat, nat> {
    map k | k in keys :: RowSum(Group(rows, key, k), disk)
  }

  lemma NoRows(disk: map<nat, nat>)
    ensures RowSum({}, disk) == 0
  {
    assert Weights({}, disk) == map[];
  }

  /** Adding up group by group adds up everything, whatever the rows are grouped by. */
  lemma {:induction false} SumByGroups(rows: set<Ownership>, disk: map<nat, nat>, key: Ownership -> nat, keys: set<nat>)
    requires forall r :: r in rows ==> key(r) in keys
    ensures Sum(Groups(rows, disk, key, keys)) == RowSum(rows, disk)
    decreases |keys|
  {
    var groups := Groups(rows, disk, key, keys);
    hide RowSum;
    if k :| k in keys {
      var part := Group(rows, key, k);
      RowSumSplit(rows, part, disk);
      SumRemove(groups, k);
      SumByGroups(rows - part, disk, key, keys - {k});
      forall j | j in keys - {k} ensures Group(rows - part, key, j) == Group(rows, key, j) {
      }
      assert groups - {k} == Groups(rows - part, disk, key, keys - {k});
    } else {
      assert rows == {} && groups == map[];
      NoRows(disk);
    }
  }

  /** The rows of one app weigh what its depots weigh. */
  lemma {:induction false} RowsOfApp(rows: set<Ownership>, disk: map<nat, nat>, app: nat)
    requires forall r :: r in rows ==> r.app == app
    ensures RowSum(rows, disk) == SizeOf(DepotsOf(rows, app), disk)
    decreases |rows|
  {
    if r :| r in rows {
      RowSumSplit(rows, {r}, disk);
      RowsOfApp(rows - {r}, disk, app);
      RowSumOne(r, disk);
      SizeExtend(DepotsOf(rows - {r}, app), disk, r.depot);
      assert DepotsOf(rows, app) == DepotsOf(rows - {r}, app) + {r.depot};
    } else {
      assert rows == {} && DepotsOf(rows, app) == {} && Weights(rows, disk) == map[];
      NothingPresent({}, disk);
    }
  }

  lemma RowSumOne(r: Ownership, disk: map<nat, nat>)
    ensures RowSum({r}, disk) == BytesOf(disk, r.depot)
  {
    SumRemove(Weights({r}, disk), r);
    assert Weights({r}, disk) - {r} == map[];
  }

  /** The rows of one depot weigh its bytes once per owner. */
  lemma {:induction false} RowsOfDepot(rows: set<Ownership>, disk: map<nat, nat>, depot: nat)
    requires forall r :: r in rows ==> r.depot == depot
    ensures RowSum(rows, disk) == |rows| * BytesOf(disk, depot)
    decreases |rows|
  {
    if r :| r in rows {
      RowSumSplit(rows, {r}, disk);
      RowsOfDepot(rows - {r}, disk, depot);
      RowSumOne(r, disk);
      assert |rows| * BytesOf(disk, depot) == (|rows| - 1) * BytesOf(disk, depot) + BytesOf(disk, depot);
    } else {
      assert rows == {};
      assert Weights(rows, disk) == map[];
    }
  }

  lemma {:induction false} SumAdds(a: map<nat, nat>, b: map<nat, nat>, c: map<nat, nat>)
    requires a.Keys == b.Keys == c.Keys
    requires forall k :: k in a ==> c[k] == a[k] + b[k]
    ensures Sum(c) == Sum(a) + Sum(b)
    decreases |a|
  {
    if k :| k in a {
      SumRemove(a, k);
      SumRemove(b, k);
      SumRemove(c, k);
      SumAdds(a - {k}, b - {k}, c - {k});
    } else {
      assert a == map[] && b == map[] && c == map[];
    }
  }

  ghost function ExtraBytes(rows: set<Ownership>, disk: map<nat, nat>): map<nat, nat> {
    map d | d in Mapped(rows) :: if |Owners(rows, d)| >= 1 then (|Owners(rows, d)| - 1) * BytesOf(disk, d) else 0
  }

  ghost function AppSizes(rows: set<Ownership>, disk: map<nat, nat>): map<nat, nat> {
    map a | a in Apps(rows) :: SizeOf(DepotsOf(rows, a), disk)
  }

  lemma AppSizesWeighRows(rows: set<Ownership>, disk: map<nat, nat>)
    ensures Sum(AppSizes(rows, disk)) == RowSum(rows, disk)
  {
    var byApp := (r: Ownership) => r.app;
    SumByGroups(rows, disk, byApp, Apps(rows));
    var groups := Groups(rows, disk, byApp, Apps(rows));
    forall a | a in Apps(rows) ensures groups[a] == SizeOf(DepotsOf(rows, a), disk) {
      var part := Group(rows, byApp, a);
      RowsOfApp(part, disk, a);
      assert DepotsOf(part, a) == DepotsOf(rows, a);
    }
    assert groups == AppSizes(rows, disk);
  }

  lemma OwnersWeigh(rows: set<Ownership>, disk: map<nat, nat>, d: nat)
    requires d in Mapped(rows)
    ensures |Owners(rows, d)| >= 1
    ensures RowSum(Owners(rows, d), disk) == BytesOf(disk, d) + (|Owners(rows, d)| - 1) * BytesOf(disk, d)
  {
    var r :| r in rows && r.depot == d;
    assert r in Owners(rows, d);
    RowsOfDepot(Owners(rows, d), disk, d);
    var (n, b) := (|Owners(rows, d)|, BytesOf(disk, d));
    assert n * b == b + (n - 1) * b;
  }

  lemma MappedBytesWeighRows(rows: set<Ownership>, disk: map<nat, nat>)
    ensures RowSum(rows, disk) == SizeOf(Mapped(rows), disk) + Sum(ExtraBytes(rows, disk))
  {
    var byDepot := (r: Ownership) => r.depot;
    SumByGroups(rows, disk, byDepot, Mapped(rows));
    var groups := Groups(rows, disk, byDepot, Mapped(rows));
    var once := Once(Mapped(rows), disk);
    var extra := ExtraBytes(rows, disk);
    forall d | d in Mapped(rows) ensures groups[d] == once[d] + extra[d] {
      assert Group(rows, byDepot, d) == Owners(rows, d);
      OwnersWeigh(rows, disk, d);
    }
    hide RowSum, SizeOf, Owners;
    SumAdds(once, extra, groups);
    OnceIsSize(Mapped(rows), disk);
  }

  function Once(depots: set<nat>, disk: map<nat, nat>): map<nat, nat> {
    map d | d in depots :: BytesOf(disk, d)
  }

  lemma OnceIsSize(depots: set<nat>, disk: map<nat, nat>)
    ensures Sum(Once(depots, disk)) == SizeOf(depots, disk)
  {
    var once := Once(depots, disk);
    SumSplit(once, disk.Keys);
    assert (map d | d in once && d in disk.Keys :: once[d]) == Present(depots, disk);
    AllZero(once - disk.Keys);
  }

  lemma {:induction false} AllZero(m: map<nat, nat>)
    requires forall k :: k in m ==> m[k] == 0
    ensures Sum(m) == 0
    decreases |m|
  {
    if k :| k in m {
      SumRemove(m, k);
      AllZero(m - {k});
    } else {
      assert m == map[];
    }
  }

  /** Apps without a size count as nothing. */
  lemma NullsCountZero(s: Summary, rows: set<Ownership>, disk: map<nat, nat>)
    requires Summarises(s, rows, disk)
    ensures Sum(s.sizes) == Sum(AppSizes(rows, disk))
  {
    var all := AppSizes(rows, disk);
    SumSplit(all, s.sizes.Keys);
    assert (map a | a in all && a in s.sizes.Keys :: all[a]) == s.sizes;
    forall a | a in all - s.sizes.Keys ensures all[a] == 0 {
      NothingPresent(DepotsOf(rows, a), disk);
    }
    AllZero(all - s.sizes.Keys);
  }

  /** Conservation: what all apps claim plus what nobody claims is the disk total plus, for every
      shared depot, its bytes once more for each owner beyond the first. */
  lemma SizesAddUp(s: Summary, rows: set<Ownership>, disk: map<nat, nat>)
    requires Summarises(s, rows, disk)
    ensures Sum(s.sizes) + s.unmappedBytes == s.total + Sum(ExtraBytes(rows, disk))
  {
    NullsCountZero(s, rows, disk);
    AppSizesWeighRows(rows, disk);
    MappedBytesWeighRows(rows, disk);
    var whole := Present(disk.Keys, disk);
    SumSplit(whole, Mapped(rows));
    assert (map d | d in whole && d in Mapped(rows) :: whole[d]) == Present(Mapped(rows), disk);
    assert whole - Mapped(rows) == Present(disk.Keys - Mapped(rows), disk);
  }
}
