/** The region-selection resolver of `MapKitHandler`: decoding a monitored
    region identifier back to a geofence and kind, the de-duplication test for
    the pending list, the choice of a replacement selection, and the
    draw/monitor calls as abstract commands. */
module Handler {
  import opened Wrappers
  import opened Text
  import opened Sequences
  import opened GeofenceModel

  /** `MapKitSynchronizerError`. */
  datatype SyncError = UnknownError | GeofenceNotFound

  /** `SelectedGeofenceEntity`: the device is inside this geofence's circle of
      this kind. */
  datatype Selection = Selection(geofence: Geofence, kind: Kind)

  /** Two selections denote the same monitored region: same geofence id and
      same kind. This is the comparison every handler and the synchronizer
      use; the rest of the geofence record is not compared. */
  predicate SameSelection(a: Selection, b: Selection)
  {
    a.geofence.id == b.geofence.id && a.kind == b.kind
  }

  /** Some entry of `pending` denotes the same region as `s`. */
  predicate HasKey(pending: seq<Selection>, s: Selection)
  {
    exists x :: x in pending && SameSelection(x, s)
  }

  /** An id the region suffixes cannot be confused with. */
  predicate PlainId(id: string)
  {
    !Contains(id, ZoneSuffix) && !Contains(id, WifiSuffix)
  }

  // ---------------------------------------------------------------------------
  // Decoding region identifiers

  /** The kind a region identifier denotes: zone when "_zone" occurs anywhere
      in it, and wifi for every other string. */
  function KindOf(regionId: string): (k: Kind)
    ensures k == Zone <==> exists i: nat :: OccursAt(regionId, ZoneSuffix, i)
    ensures k == Wifi <==> !Contains(regionId, ZoneSuffix)
  {
    ContainsIffOccurs(regionId, ZoneSuffix);
    if Contains(regionId, ZoneSuffix) then Zone else Wifi
  }

  /** The geofence id a region identifier denotes: every "_wifi" cut out, then
      every "_zone". A string holding neither is its own id. */
  function ParseId(regionId: string): (id: string)
    ensures |id| <= |regionId|
    ensures PlainId(regionId) ==> id == regionId
  {
    DeleteAll(DeleteAll(regionId, WifiSuffix), ZoneSuffix)
  }

  /** `g` is the earliest entry of `stored` with the given id. */
  predicate IsFirstWithId(stored: seq<Geofence>, id: string, g: Geofence)
  {
    exists i ::
      && 0 <= i < |stored| && stored[i] == g && g.id == id
      && forall j :: 0 <= j < i ==> stored[j].id != id
  }

  /** There is only one earliest entry with a given id. */
  lemma FirstWithIdUnique(stored: seq<Geofence>, id: string, a: Geofence, b: Geofence)
    requires IsFirstWithId(stored, id, a) && IsFirstWithId(stored, id, b)
    ensures a == b
  {
  }

  /** Appending entries does not change the earliest entry with an id. */
  lemma FirstWithIdExtends(stored: seq<Geofence>, more: seq<Geofence>, id: string, g: Geofence)
    requires IsFirstWithId(stored, id, g)
    ensures IsFirstWithId(stored + more, id, g)
  {
    var i :| 0 <= i < |stored| && stored[i] == g && g.id == id && forall j :: 0 <= j < i ==> stored[j].id != id;
    assert (stored + more)[i] == g;
    assert forall j :: 0 <= j < i ==> (stored + more)[j] == stored[j];
  }

  /** `filterSelectedGeofence(from:basedOn:)`: the first stored geofence whose
      id is the parsed id, tagged with the parsed kind; `geofenceNotFound`
      exactly when no stored geofence has that id. */
  function Resolve(stored: seq<Geofence>, regionId: string): (r: Result<Selection, SyncError>)
    ensures r.Err? <==> forall g :: g in stored ==> g.id != ParseId(regionId)
    ensures r.Err? ==> r.error == GeofenceNotFound
    ensures r.Ok? ==> (r.value.kind == Zone <==> exists i: nat :: OccursAt(regionId, ZoneSuffix, i))
    ensures r.Ok? ==> IsFirstWithId(stored, ParseId(regionId), r.value.geofence)
  {
    var id := ParseId(regionId);
    var hasId := (g: Geofence) => g.id == id;
    match FirstIndex(stored, hasId)
    case None =>
      FirstIndexNone(stored, hasId);
      Err(GeofenceNotFound)
    case Some(i) => Ok(Selection(stored[i], KindOf(regionId)))
  }

  /** No occurrence of `p` in `a + q` when `a` has none and `q` never holds
      the last character of `p`. */
  lemma NotContainedWithSuffix(a: string, q: string, p: string)
    requires |p| > 0 && !Contains(a, p)
    requires forall j :: 0 <= j < |q| ==> q[j] != p[|p| - 1]
    ensures !Contains(a + q, p)
  {
    ContainsIffOccurs(a, p);
    ContainsIffOccurs(a + q, p);
    forall i: nat ensures !OccursAt(a + q, p, i) {
      if i + |p| <= |a| {
        assert (a + q)[i..i + |p|] == a[i..i + |p|];
        assert !OccursAt(a, p, i);
      } else if i + |p| <= |a + q| {
        var k := i + |p| - 1;
        assert (a + q)[i..i + |p|][|p| - 1] == (a + q)[k];
        assert (a + q)[k] == q[k - |a|];
      }
    }
  }

  /** In `a + p`, when `a` has no occurrence of `p` and the first character of
      `p` does not recur in it, the only occurrence starts after `a`. */
  lemma NoEarlyOccurrence(a: string, p: string)
    requires |p| > 0 && !Contains(a, p)
    requires forall j :: 0 < j < |p| ==> p[j] != p[0]
    ensures forall i: nat :: i < |a| ==> !OccursAt(a + p, p, i)
  {
    ContainsIffOccurs(a, p);
    forall i: nat | i < |a| ensures !OccursAt(a + p, p, i) {
      if i + |p| <= |a| {
        assert (a + p)[i..i + |p|] == a[i..i + |p|];
        assert !OccursAt(a, p, i);
      } else {
        var j := |a| - i;
        assert (a + p)[i..i + |p|][j] == (a + p)[|a|] == p[0];
        assert p[j] != p[0];
      }
    }
  }

  /** Deleting `p` from `a + p`, when `a` holds no `p` and the first character
      of `p` does not recur in it, leaves `a`. */
  lemma DeleteTrailing(a: string, p: string)
    requires |p| > 0 && !Contains(a, p)
    requires forall j :: 0 < j < |p| ==> p[j] != p[0]
    ensures DeleteAll(a + p, p) == a
  {
    NoEarlyOccurrence(a, p);
    DeleteAllSkipsPrefix(a, p, p);
    DeleteAllSelf(p);
    assert a + [] == a;
  }

  /** A zone region identifier decodes to its id and the zone kind. */
  lemma {:induction false} ZoneIdRoundTrip(id: string)
    requires PlainId(id)
    ensures KindOf(id + ZoneSuffix) == Zone
    ensures ParseId(id + ZoneSuffix) == id
  {
    var s := id + ZoneSuffix;
    assert OccursAt(s, ZoneSuffix, |id|) by { assert s[|id|..|id| + 5] == ZoneSuffix; }
    ContainsIffOccurs(s, ZoneSuffix);
    assert forall j :: 0 <= j < 5 ==> ZoneSuffix[j] != 'i';
    NotContainedWithSuffix(id, ZoneSuffix, WifiSuffix);
    assert DeleteAll(s, WifiSuffix) == s;
    assert forall j :: 0 < j < 5 ==> ZoneSuffix[j] != '_';
    DeleteTrailing(id, ZoneSuffix);
  }

  /** A wifi region identifier decodes to its id and the wifi kind. */
  lemma {:induction false} WifiIdRoundTrip(id: string)
    requires PlainId(id)
    ensures KindOf(id + WifiSuffix) == Wifi
    ensures ParseId(id + WifiSuffix) == id
  {
    var s := id + WifiSuffix;
    assert forall j :: 0 <= j < 5 ==> WifiSuffix[j] != 'e';
    NotContainedWithSuffix(id, WifiSuffix, ZoneSuffix);
    assert forall j :: 0 < j < 5 ==> WifiSuffix[j] != '_';
    DeleteTrailing(id, WifiSuffix);
  }

  /** Round trip: the identifier of either region of a geofence with a plain
      id decodes back to that id and that kind. */
  lemma RegionIdRoundTrip(g: Geofence, k: Kind)
    requires PlainId(g.id)
    ensures KindOf(ToRegion(g, k).identifier) == k
    ensures ParseId(ToRegion(g, k).identifier) == g.id
  {
    if k == Zone { ZoneIdRoundTrip(g.id); } else { WifiIdRoundTrip(g.id); }
  }

  /** Resolving either region of a stored geofence with a plain id succeeds
      with a geofence of that id and the region's kind. */
  lemma ResolveRegionOfStored(stored: seq<Geofence>, g: Geofence, k: Kind)
    requires g in stored && PlainId(g.id)
    ensures Resolve(stored, ToRegion(g, k).identifier).Ok?
    ensures Resolve(stored, ToRegion(g, k).identifier).value.geofence.id == g.id
    ensures Resolve(stored, ToRegion(g, k).identifier).value.kind == k
  {
    RegionIdRoundTrip(g, k);
  }

  /** With the plain-id restriction dropped the round trip fails: the wifi
      region of a geofence whose id ends in "_zone" decodes as a zone of
      another id. */
  lemma RoundTripNeedsPlainId(g: Geofence)
    requires g.id == "a_zone"
    ensures KindOf(ToRegion(g, Wifi).identifier) == Zone
    ensures ParseId(ToRegion(g, Wifi).identifier) == "a"
  {
    assert PlainId("a") by {
      ContainsIffOccurs("a", WifiSuffix);
      ContainsIffOccurs("a", ZoneSuffix);
    }
    assert ToRegion(g, Wifi).identifier == "a" + ZoneSuffix + WifiSuffix;
    ZoneLookingIdMisreads("a");
  }

  /** For any plain `a`, the wifi region of the id `a` + "_zone" decodes as
      the zone region of `a`. */
  lemma ZoneLookingIdMisreads(a: string)
    requires PlainId(a)
    ensures KindOf(a + ZoneSuffix + WifiSuffix) == Zone
    ensures ParseId(a + ZoneSuffix + WifiSuffix) == a
  {
    var s := a + ZoneSuffix + WifiSuffix;
    assert OccursAt(s, ZoneSuffix, |a|) by { assert s[|a|..|a| + 5] == ZoneSuffix; }
    ZoneLookingIdParse(a);
  }

  /** Cutting "_wifi", then "_zone", out of `a` + "_zone_wifi" leaves `a`. */
  lemma ZoneLookingIdParse(a: string)
    requires PlainId(a)
    ensures ParseId(a + ZoneSuffix + WifiSuffix) == a
  {
    var z := a + ZoneSuffix;
    assert DeleteAll(z + WifiSuffix, WifiSuffix) == z by {
      assert forall j :: 0 <= j < 5 ==> ZoneSuffix[j] != 'i';
      NotContainedWithSuffix(a, ZoneSuffix, WifiSuffix);
      assert forall j :: 0 < j < 5 ==> WifiSuffix[j] != '_';
      DeleteTrailing(z, WifiSuffix);
    }
    assert DeleteAll(z, ZoneSuffix) == a by {
      assert forall j :: 0 < j < 5 ==> ZoneSuffix[j] != '_';
      DeleteTrailing(a, ZoneSuffix);
    }
  }

  // ---------------------------------------------------------------------------
  // The pending list

  /** `shouldInsertInterceptedGeofence(from:selectedGeofence:)`: insert unless
      an entry already denotes the same region. */
  function ShouldInsert(pending: seq<Selection>, s: Selection): (b: bool)
    ensures b <==> !HasKey(pending, s)
  {
    var found := FirstIndex(pending, (x: Selection) => SameSelection(x, s));
    assert found.Some? ==> pending[found.value] in pending;
    found.None?
  }

  /** The enter handler's "append if `shouldInsert`". */
  function Insert(pending: seq<Selection>, s: Selection): (r: seq<Selection>)
    ensures HasKey(r, s)
    ensures HasKey(pending, s) ==> r == pending
    ensures !HasKey(pending, s) ==> r == pending + [s]
  {
    if ShouldInsert(pending, s) then
      assert s in pending + [s];
      pending + [s]
    else pending
  }

  /** No two entries denote the same region. */
  predicate DistinctKeys(pending: seq<Selection>)
    decreases |pending|
  {
    |pending| == 0 || (!HasKey(pending[1..], pending[0]) && DistinctKeys(pending[1..]))
  }

  /** Appending a selection whose region is absent keeps the keys distinct. */
  lemma {:induction false} DistinctKeysAppend(pending: seq<Selection>, s: Selection)
    requires DistinctKeys(pending) && !HasKey(pending, s)
    ensures DistinctKeys(pending + [s])
    decreases |pending|
  {
    if |pending| > 0 {
      var p := pending + [s];
      assert p[1..] == pending[1..] + [s];
      assert pending[0] in pending;
      forall x | x in pending[1..] ensures x in pending { }
      DistinctKeysAppend(pending[1..], s);
    }
  }

  /** Inserting twice is inserting once, and insertion never creates two
      entries for the same region. */
  lemma InsertIdempotent(pending: seq<Selection>, s: Selection)
    ensures Insert(Insert(pending, s), s) == Insert(pending, s)
    ensures DistinctKeys(pending) ==> DistinctKeys(Insert(pending, s))
  {
    if DistinctKeys(pending) && !HasKey(pending, s) {
      DistinctKeysAppend(pending, s);
    }
  }

  /** The exit handler's `removeAll(where:)`: every entry denoting the region
      of `s` goes, the others stay in their order. */
  function RemoveMatching(pending: seq<Selection>, s: Selection): (r: seq<Selection>)
    ensures forall x :: x in r ==> x in pending && !SameSelection(x, s)
    ensures forall x :: x in pending && !SameSelection(x, s) ==> x in r
    ensures !HasKey(r, s)
    ensures IsSubsequence(r, pending)
    ensures !HasKey(pending, s) ==> r == pending
    ensures forall x {:trigger multiset(r)[x]} :: x in pending ==> multiset(r)[x] == if SameSelection(x, s) then 0 else multiset(pending)[x]
  {
    var r := Filter(pending, (x: Selection) => !SameSelection(x, s));
    assert !HasKey(pending, s) ==> r == pending by {
      if !HasKey(pending, s) { FilterAll(pending, (x: Selection) => !SameSelection(x, s)); }
    }
    r
  }

  /** Removal walks the pending list front to back, dropping each entry with
      the key of `s` and keeping the rest. */
  lemma RemoveMatchingCons(x: Selection, rest: seq<Selection>, s: Selection)
    ensures RemoveMatching([x] + rest, s)
      == (if SameSelection(x, s) then [] else [x]) + RemoveMatching(rest, s)
  {
  }

  /** A filter whose predicate holds everywhere keeps the whole sequence. */
  lemma {:induction false} FilterAll(xs: seq<Selection>, p: Selection -> bool)
    requires forall x :: x in xs ==> p(x)
    ensures Filter(xs, p) == xs
  {
    if |xs| > 0 {
      assert xs[0] in xs;
      forall x | x in xs[1..] ensures p(x) { assert x in xs; }
      FilterAll(xs[1..], p);
    }
  }

  /** Removing entries keeps the remaining keys distinct. */
  lemma {:induction false} DistinctKeysRemove(pending: seq<Selection>, s: Selection)
    requires DistinctKeys(pending)
    ensures DistinctKeys(RemoveMatching(pending, s))
    decreases |pending|
  {
    if |pending| > 0 {
      var t := pending[1..];
      var pr := (x: Selection) => !SameSelection(x, s);
      assert RemoveMatching(pending, s) == Filter(pending, pr);
      assert RemoveMatching(t, s) == Filter(t, pr);
      DistinctKeysRemove(t, s);
      if pr(pending[0]) {
        var r := Filter(pending, pr);
        assert r == [pending[0]] + Filter(t, pr);
        assert r[1..] == Filter(t, pr);
        forall x | x in r[1..] ensures !SameSelection(x, pending[0]) {
          assert x in t;
        }
      }
    }
  }

  // ---------------------------------------------------------------------------
  // Choosing the next selection

  /** Two distinct entries of `pending` belong to the geofence `id`. */
  predicate HasTwoWithId(pending: seq<Selection>, id: string)
  {
    exists i, j :: 0 <= i < j < |pending| && pending[i].geofence.id == id && pending[j].geofence.id == id
  }

  /** `r` is the earliest zone entry of geofence `id` in `pending`. */
  predicate IsFirstZoneOf(pending: seq<Selection>, id: string, r: Selection)
  {
    exists i :: 0 <= i < |pending| && pending[i] == r && r.geofence.id == id && r.kind == Zone
      && forall j :: 0 <= j < i ==> !(pending[j].geofence.id == id && pending[j].kind == Zone)
  }

  /** `selectNextSelectedGeofence(from:selectedGeofence:)`: among the entries
      of the same geofence as `s`, when there are at least two of them and one
      is a zone, the first such zone entry; otherwise `s` itself. */
  function SelectNext(pending: seq<Selection>, s: Selection): (r: Selection)
    ensures r.geofence.id == s.geofence.id
    ensures r == s || r in pending
    ensures r != s ==> r.kind == Zone
    ensures HasTwoWithId(pending, s.geofence.id)
      && (exists x :: x in pending && x.geofence.id == s.geofence.id && x.kind == Zone)
      ==> IsFirstZoneOf(pending, s.geofence.id, r)
    ensures !HasTwoWithId(pending, s.geofence.id)
      || (forall x :: x in pending && x.geofence.id == s.geofence.id ==> x.kind != Zone)
      ==> r == s
  {
    var group := Filter(pending, InGroupOf(s));
    SelectNextGroup(pending, s);
    if |group| > 1 then
      match FirstIndex(group, IsZoneEntry)
      case Some(i) => group[i]
      case None => s
    else s
  }

  /** The filter at line 77 of the handler: entries of the geofence of `s`. */
  function InGroupOf(s: Selection): Selection -> bool
  {
    (x: Selection) => SameGeofence(x.geofence, s.geofence)
  }

  /** The search at line 79 of the handler: a zone entry. */
  function IsZoneEntry(x: Selection): bool
  {
    x.kind == Zone
  }

  /** What the filter and the search in `SelectNext` find, stated on the
      pending list itself. */
  lemma SelectNextGroup(pending: seq<Selection>, s: Selection)
    ensures |Filter(pending, InGroupOf(s))| > 1 <==> HasTwoWithId(pending, s.geofence.id)
    ensures FirstIndex(Filter(pending, InGroupOf(s)), IsZoneEntry).None?
      <==> forall x :: x in pending && x.geofence.id == s.geofence.id ==> x.kind != Zone
    ensures FirstIndex(Filter(pending, InGroupOf(s)), IsZoneEntry).Some? ==>
      IsFirstZoneOf(pending, s.geofence.id, Filter(pending, InGroupOf(s))[FirstIndex(Filter(pending, InGroupOf(s)), IsZoneEntry).value])
  {
    FilterMoreThanOne(pending, InGroupOf(s));
    GroupWithoutZone(pending, s);
    if FirstIndex(Filter(pending, InGroupOf(s)), IsZoneEntry).Some? {
      GroupFirstZone(pending, s);
    }
  }

  /** The group holds no zone entry exactly when the pending list holds none
      for the geofence of `s`. */
  lemma GroupWithoutZone(pending: seq<Selection>, s: Selection)
    ensures FirstIndex(Filter(pending, InGroupOf(s)), IsZoneEntry).None?
      <==> forall x :: x in pending && x.geofence.id == s.geofence.id ==> x.kind != Zone
  {
    FilterFindsNone(pending, InGroupOf(s), IsZoneEntry);
    if FirstIndex(Filter(pending, InGroupOf(s)), IsZoneEntry).None? {
      forall x | x in pending && x.geofence.id == s.geofence.id ensures x.kind != Zone {
        var k :| 0 <= k < |pending| && pending[k] == x;
        assert !(InGroupOf(s)(pending[k]) && IsZoneEntry(pending[k]));
      }
    } else {
      var k :| 0 <= k < |pending| && InGroupOf(s)(pending[k]) && IsZoneEntry(pending[k]);
      assert pending[k] in pending;
    }
  }

  /** The group's first zone entry is the earliest zone entry of the
      geofence of `s` in the pending list. */
  lemma GroupFirstZone(pending: seq<Selection>, s: Selection)
    requires FirstIndex(Filter(pending, InGroupOf(s)), IsZoneEntry).Some?
    ensures IsFirstZoneOf(pending, s.geofence.id, Filter(pending, InGroupOf(s))[FirstIndex(Filter(pending, InGroupOf(s)), IsZoneEntry).value])
  {
    var group := Filter(pending, InGroupOf(s));
    var r := group[FirstIndex(group, IsZoneEntry).value];
    FilterFindsFirst(pending, InGroupOf(s), IsZoneEntry);
    var k :| (0 <= k < |pending| && pending[k] == r
      && InGroupOf(s)(pending[k]) && IsZoneEntry(pending[k])
      && forall m :: 0 <= m < k ==> !(InGroupOf(s)(pending[m]) && IsZoneEntry(pending[m])));
    forall m | 0 <= m < k ensures !(pending[m].geofence.id == s.geofence.id && pending[m].kind == Zone) {
      assert !(InGroupOf(s)(pending[m]) && IsZoneEntry(pending[m]));
    }
  }

  /** With distinct keys, two entries of one geofence are its zone and its
      wifi region. */
  lemma TwoWithIdMeansBothKinds(pending: seq<Selection>, g: Geofence)
    requires DistinctKeys(pending) && HasTwoWithId(pending, g.id)
    ensures HasKey(pending, Selection(g, Zone)) && HasKey(pending, Selection(g, Wifi))
  {
    var i, j :| 0 <= i < j < |pending| && pending[i].geofence.id == g.id && pending[j].geofence.id == g.id;
    DistinctKeysIndices(pending, i, j);
    assert pending[i] in pending && pending[j] in pending;
    if pending[i].kind == Zone {
      assert SameSelection(pending[i], Selection(g, Zone)) && SameSelection(pending[j], Selection(g, Wifi));
    } else {
      assert SameSelection(pending[j], Selection(g, Zone)) && SameSelection(pending[i], Selection(g, Wifi));
    }
  }

  /** Entries for both regions of a geofence are two entries of it. */
  lemma BothKindsMeansTwoWithId(pending: seq<Selection>, g: Geofence)
    requires HasKey(pending, Selection(g, Zone)) && HasKey(pending, Selection(g, Wifi))
    ensures HasTwoWithId(pending, g.id)
  {
  }

  /** With distinct keys, the next selection is the zone entry of `s`'s
      geofence when both of its regions are pending, and `s` otherwise. */
  lemma SelectNextDistinct(pending: seq<Selection>, s: Selection)
    requires DistinctKeys(pending)
    ensures HasKey(pending, Selection(s.geofence, Zone)) && HasKey(pending, Selection(s.geofence, Wifi))
      ==> SelectNext(pending, s).kind == Zone
    ensures !(HasKey(pending, Selection(s.geofence, Zone)) && HasKey(pending, Selection(s.geofence, Wifi)))
      ==> SelectNext(pending, s) == s
  {
    var z := Selection(s.geofence, Zone);
    if HasKey(pending, z) && HasKey(pending, Selection(s.geofence, Wifi)) {
      BothKindsMeansTwoWithId(pending, s.geofence);
      var a :| a in pending && SameSelection(a, z);
      assert a.geofence.id == s.geofence.id && a.kind == Zone;
    }
    if HasTwoWithId(pending, s.geofence.id) {
      TwoWithIdMeansBothKinds(pending, s.geofence);
    }
  }

  /** Distinct keys, stated on positions. */
  lemma {:induction false} DistinctKeysIndices(pending: seq<Selection>, i: int, j: int)
    requires DistinctKeys(pending) && 0 <= i < j < |pending|
    ensures !SameSelection(pending[i], pending[j])
    decreases |pending|
  {
    if i == 0 {
      assert pending[j] == pending[1..][j - 1];
      assert pending[j] in pending[1..];
    } else {
      DistinctKeysIndices(pending[1..], i - 1, j - 1);
    }
  }

  // ---------------------------------------------------------------------------
  // Drawing and monitoring, as commands

  /** `drawAndStartMonitorGeofence` / `removeAndStopMonitorGeofence`. */
  datatype Command = DrawAndStartMonitor(geofence: Geofence) | RemoveAndStopMonitor(geofence: Geofence)

  datatype MonitorRequest = StartMonitoring(region: Region) | StopMonitoring(region: Region)

  /** The location-manager requests a command amounts to: both regions of the
      geofence, zone first. */
  function MonitorRequests(c: Command): (rs: seq<MonitorRequest>)
    ensures |rs| == 2
    ensures rs[0].region == ToRegion(c.geofence, Zone) && rs[1].region == ToRegion(c.geofence, Wifi)
    ensures c.DrawAndStartMonitor? <==> rs[0].StartMonitoring? && rs[1].StartMonitoring?
  {
    match c
    case DrawAndStartMonitor(g) => [StartMonitoring(ToRegion(g, Zone)), StartMonitoring(ToRegion(g, Wifi))]
    case RemoveAndStopMonitor(g) => [StopMonitoring(ToRegion(g, Zone)), StopMonitoring(ToRegion(g, Wifi))]
  }

  /** Every region a draw command starts monitoring reports events that
      resolve, against a list holding the geofence, to its id and the
      region's kind; and both regions notify on entry and exit. */
  lemma MonitoredRegionsResolve(stored: seq<Geofence>, g: Geofence)
    requires g in stored && PlainId(g.id)
    ensures var rs := MonitorRequests(DrawAndStartMonitor(g));
      && rs[0].region.notifyOnEntry && rs[0].region.notifyOnExit
      && rs[1].region.notifyOnEntry && rs[1].region.notifyOnExit
      && Resolve(stored, rs[0].region.identifier).Ok?
      && Resolve(stored, rs[0].region.identifier).value.geofence.id == g.id
      && Resolve(stored, rs[0].region.identifier).value.kind == Zone
      && Resolve(stored, rs[1].region.identifier).Ok?
      && Resolve(stored, rs[1].region.identifier).value.geofence.id == g.id
      && Resolve(stored, rs[1].region.identifier).value.kind == Wifi
  {
    ResolveRegionOfStored(stored, g, Zone);
    ResolveRegionOfStored(stored, g, Wifi);
  }
}
