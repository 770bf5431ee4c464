/** The choice of remote instance of src/lib/sections/settings/vertdSettings.svelte.ts: the
    selection mode with its stored form, the nearest-instance search, and the address used in
    each mode with the reachability fallback. The great-circle distance, the IP lookup and the
    reachability probe are passed in. */
module VertdSettings {
  import opened Wrappers
  import opened AppSettings

  datatype Location = Location(latitude: real, longitude: real, url: string)

  datatype IpInfo = IpInfo(latitude: real, longitude: real)

  /** `VertdInner["type"]`. */
  datatype Mode = Auto | Eu | Us | Custom

  /** The parsed "vertdInstance" item; `kind` is its `type` field when the stored object has one. */
  datatype Stored = Stored(kind: Option<Mode>)

  const EuUrl: string := "https://eu.vertd.vert.sh"
  const UsUrl: string := "https://usa.vertd.vert.sh"

  /** The public instance address that does not count as a custom deployment. */
  const PublicUrl: string := "https://vertd.vert.sh"

  /** `LOCATIONS`, in list order. */
  const Locations: seq<Location> := [Location(49.0976, 12.4869, EuUrl), Location(47.6587, -117.426, UsUrl)]

  /** `k` is a nearest location to `ip`, and every location before it is strictly farther. */
  ghost predicate IsFirstClosest(locs: seq<Location>, ip: IpInfo, distance: (IpInfo, Location) -> real, k: nat) {
    k < |locs|
    && (forall j :: 0 <= j < |locs| ==> distance(ip, locs[k]) <= distance(ip, locs[j]))
    && (forall j :: 0 <= j < k ==> distance(ip, locs[j]) > distance(ip, locs[k]))
  }

  /** There is only one such location. */
  lemma FirstClosestUnique(locs: seq<Location>, ip: IpInfo, distance: (IpInfo, Location) -> real, a: nat, b: nat)
    requires IsFirstClosest(locs, ip, distance, a) && IsFirstClosest(locs, ip, distance, b)
    ensures a == b
  {
    assert distance(ip, locs[a]) <= distance(ip, locs[b]) && distance(ip, locs[b]) <= distance(ip, locs[a]);
  }

  /** The index of the first nearest location. */
  function FirstClosest(locs: seq<Location>, ip: IpInfo, distance: (IpInfo, Location) -> real): (k: nat)
    requires |locs| > 0
    ensures IsFirstClosest(locs, ip, distance, k)
  {
    if |locs| == 1 then 0
    else
      var init := locs[..|locs| - 1];
      var b := FirstClosest(init, ip, distance);
      assert forall j :: 0 <= j < |init| ==> init[j] == locs[j];
      if distance(ip, locs[|locs| - 1]) < distance(ip, locs[b]) then |locs| - 1 else b
  }

  /** `geographicallyOptimalInstance(ip)`, over any non-empty location list: a strictly
      closer location replaces the best so far, so ties keep the earlier one. */
  method GeographicallyOptimalInstance(locs: seq<Location>, ip: IpInfo, distance: (IpInfo, Location) -> real) returns (url: string)
    requires |locs| > 0
    ensures url == locs[FirstClosest(locs, ip, distance)].url
  {
    var best := 0;
    var bestDistance := distance(ip, locs[0]);
    var i := 1;
    while i < |locs|
      invariant 1 <= i <= |locs| && best < i
      invariant bestDistance == distance(ip, locs[best])
      invariant forall j :: 0 <= j < i ==> bestDistance <= distance(ip, locs[j])
      invariant forall j :: 0 <= j < best ==> distance(ip, locs[j]) > bestDistance
    {
      var d := distance(ip, locs[i]);
      if d < bestDistance {
        bestDistance := d;
        best := i;
      }
      i := i + 1;
    }
    FirstClosestUnique(locs, ip, distance, best, FirstClosest(locs, ip, distance));
    url := locs[best].url;
  }

  /** The fallback of auto mode: the first location, in list order, that is not the primary
      and is reachable; the configured address when there is none. */
  function FallbackUrl(locs: seq<Location>, primary: string, reachable: string -> bool, custom: string): (r: string)
    ensures r == custom || exists k :: 0 <= k < |locs| && locs[k].url == r
    ensures forall k :: 0 <= k < |locs| && locs[k].url == r && r != custom ==> r != primary && reachable(r)
    ensures (forall k :: 0 <= k < |locs| ==> locs[k].url == primary || !reachable(locs[k].url)) ==> r == custom
  {
    if locs == [] then custom
    else if locs[0].url != primary && reachable(locs[0].url) then locs[0].url
    else
      var r := FallbackUrl(locs[1..], primary, reachable, custom);
      assert forall k :: 0 < k < |locs| ==> locs[k] == locs[1..][k - 1];
      r
  }

  /** The first candidate the fallback passes over is one that is the primary or unreachable. */
  lemma {:induction false} FallbackSkipsOnlyUnusable(locs: seq<Location>, primary: string, reachable: string -> bool, custom: string, k: nat)
    requires k < |locs| && locs[k].url != primary && reachable(locs[k].url)
    ensures exists j :: 0 <= j <= k && FallbackUrl(locs, primary, reachable, custom) == locs[j].url
              && locs[j].url != primary && reachable(locs[j].url)
  {
    if locs[0].url != primary && reachable(locs[0].url) {
      assert FallbackUrl(locs, primary, reachable, custom) == locs[0].url;
    } else {
      assert k > 0;
      assert locs[1..][k - 1] == locs[k];
      FallbackSkipsOnlyUnusable(locs[1..], primary, reachable, custom, k - 1);
      var j :| 0 <= j <= k - 1 && FallbackUrl(locs[1..], primary, reachable, custom) == locs[1..][j].url
               && locs[1..][j].url != primary && reachable(locs[1..][j].url);
      assert locs[1..][j] == locs[j + 1];
    }
  }

  /** `VertdInstance`: the selection mode, its stored form and the cached IP lookup. */
  class VertdInstance {
    var cachedIp: Option<IpInfo>
    var inner: Mode
    /** The "vertdInstance" storage item. */
    var stored: Option<Stored>

    /** A fresh instance is in auto mode with nothing cached; `stored` is what the page finds
        in storage. */
    constructor (stored: Option<Stored>)
      ensures cachedIp == None && inner == Auto && this.stored == stored
    {
      cachedIp := None;
      inner := Auto;
      this.stored := stored;
    }

    /** `save`. */
    method Save()
      modifies this
      ensures stored == Some(Stored(Some(inner)))
      ensures inner == old(inner) && cachedIp == old(cachedIp)
    {
      stored := Some(Stored(Some(inner)));
    }

    /** `set(inner)`: replaces the mode and saves it. */
    method Set(m: Mode)
      modifies this
      ensures inner == m && stored == Some(Stored(Some(m))) && cachedIp == old(cachedIp)
    {
      inner := m;
      Save();
    }

    /** `load()`: with nothing stored, a build-time instance address that is set and is not the
        public one selects custom mode; a stored object is merged over the current mode (its
        `type`, if present, wins). */
    method Load(pubVertdUrl: string)
      modifies this
      ensures stored == old(stored) && cachedIp == old(cachedIp)
      ensures old(stored).None? && pubVertdUrl != "" && pubVertdUrl != PublicUrl ==> inner == Custom
      ensures old(stored).None? && (pubVertdUrl == "" || pubVertdUrl == PublicUrl) ==> inner == old(inner)
      ensures old(stored).Some? ==> inner == old(stored).value.kind.GetOr(old(inner))
    {
      if stored.None? {
        if pubVertdUrl != "" && pubVertdUrl != PublicUrl {
          inner := Custom;
          return;
        }
        return;
      }
      inner := stored.value.kind.GetOr(inner);
    }

    /** `url()`. Auto mode looks up the IP (`lookedUp`) only when none is cached, takes the
        nearest instance if `reachable` says it answers, else the first other reachable one,
        else the configured address; eu and us are fixed addresses; custom is the configured
        address. */
    method Url(settings: Settings, lookedUp: IpInfo, distance: (IpInfo, Location) -> real, reachable: string -> bool)
      returns (url: string)
      modifies this
      ensures inner == old(inner) && stored == old(stored)
      ensures inner == Auto ==> cachedIp == (if old(cachedIp).None? then Some(lookedUp) else old(cachedIp))
      ensures inner != Auto ==> cachedIp == old(cachedIp)
      ensures inner == Auto ==>
                var primary := Locations[FirstClosest(Locations, cachedIp.value, distance)].url;
                url == (if reachable(primary) then primary else FallbackUrl(Locations, primary, reachable, settings.vertdURL))
      ensures inner == Eu ==> url == EuUrl
      ensures inner == Us ==> url == UsUrl
      ensures inner == Custom ==> url == settings.vertdURL
    {
      match inner
      case Auto =>
        if cachedIp.None? {
          cachedIp := Some(lookedUp);
        }
        var ipInfo := cachedIp.value;
        var primary := GeographicallyOptimalInstance(Locations, ipInfo, distance);
        if reachable(primary) {
          return primary;
        }
        var i := 0;
        while i < |Locations|
          invariant 0 <= i <= |Locations|
          invariant FallbackUrl(Locations[i..], primary, reachable, settings.vertdURL)
                    == FallbackUrl(Locations, primary, reachable, settings.vertdURL)
        {
          assert Locations[i..][1..] == Locations[i + 1..];
          var location := Locations[i];
          if location.url != primary && reachable(location.url) {
            return location.url;
          }
          i := i + 1;
        }
        url := settings.vertdURL;
      case Eu =>
        url := EuUrl;
      case Us =>
        url := UsUrl;
      case Custom =>
        url := settings.vertdURL;
    }
  }

  /** In auto mode the address found is the nearest instance, another reachable instance, or
      the configured address; the configured one only when no other instance answers. */
  lemma AutoUrlChoice(ip: IpInfo, distance: (IpInfo, Location) -> real, reachable: string -> bool, custom: string)
    ensures var primary := Locations[FirstClosest(Locations, ip, distance)].url;
            var url := if reachable(primary) then primary else FallbackUrl(Locations, primary, reachable, custom);
            (reachable(primary) ==> url == primary)
            && (!reachable(primary) && reachable(Locations[0].url) && Locations[0].url != primary ==> url == Locations[0].url)
            && (!reachable(EuUrl) && !reachable(UsUrl) ==> url == custom)
  {
    var primary := Locations[FirstClosest(Locations, ip, distance)].url;
    assert Locations[0].url == EuUrl && Locations[1].url == UsUrl;
    assert primary == EuUrl || primary == UsUrl;
  }

  /** A mode that was set is the mode a later load restores. */
  method SetThenLoad(m: Mode, pubVertdUrl: string) returns (restored: Mode)
    ensures restored == m
  {
    var v := new VertdInstance(None);
    v.Set(m);
    var w := new VertdInstance(v.stored);
    w.Load(pubVertdUrl);
    restored := w.inner;
  }

  /** A deployment built with its own instance address starts in custom mode. */
  method CustomDeploymentStartsCustom(pubVertdUrl: string) returns (mode: Mode)
    requires pubVertdUrl != "" && pubVertdUrl != PublicUrl
    ensures mode == Custom
  {
    var v := new VertdInstance(None);
    v.Load(pubVertdUrl);
    mode := v.inner;
  }

  /** The fixed-region modes never touch the IP cache. */
  method FixedModesSkipLookup(m: Mode, settings: Settings, lookedUp: IpInfo, distance: (IpInfo, Location) -> real, reachable: string -> bool)
    returns (url: string, looked: bool)
    requires m != Auto
    ensures !looked
    ensures url == (if m == Eu then EuUrl else if m == Us then UsUrl else settings.vertdURL)
  {
    var v := new VertdInstance(None);
    v.Set(m);
    url := v.Url(settings, lookedUp, distance, reachable);
    looked := v.cachedIp.Some?;
  }
}
