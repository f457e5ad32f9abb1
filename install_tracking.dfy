/**
 * Install tracking (movies/views.py, `track_install`, `track_uninstall`,
 * `reset_install_data`): a store of InstallTracker records keyed by device
 * id. A device's `installCount` toggles between 0 and 1; its `deletedCount`
 * only ever goes up. Responses report the number of records with
 * `installCount == 1`.
 *
 * The transitions are first stated as functions on the store (a map from
 * device id to record); `InstallRegistry` holds the store and updates it in
 * place the way the request handlers do, and its methods are proved to
 * perform exactly those transitions.
 */
module InstallTracking {
  import opened Wrappers
  import opened RequestHeaders

  /** One InstallTracker record. Its `updated_at` timestamp is a clock read
      and is not modelled. */
  datatype Tracker = Tracker(
    installCount: nat,
    deletedCount: nat,
    deviceName: string,
    deviceInfo: string,
    lastAction: string)

  type Store = map<string, Tracker>

  const ActionInstall := "install"
  const ActionReinstall := "reinstall"
  const ActionReopen := "install (re-open)"
  const ActionUninstall := "uninstall"

  /** Every record's install count is 0 or 1. */
  ghost predicate ValidStore(m: Store)
  {
    forall id :: id in m ==> m[id].installCount <= 1
  }

  /** The devices counted as active installs: `filter(install_count=1)`. */
  function ActiveIds(m: Store): set<string>
  {
    set id | id in m && m[id].installCount == 1
  }

  /** `filter(install_count=1).count()` */
  function CountActive(m: Store): nat
  {
    |ActiveIds(m)|
  }

  /** There are never more active installs than records. */
  lemma CountActiveBound(m: Store)
    ensures CountActive(m) <= |m|
  {
    assert ActiveIds(m) <= m.Keys;
    SubsetCard(ActiveIds(m), m.Keys);
  }

  lemma {:induction false} SubsetCard(a: set<string>, b: set<string>)
    requires a <= b
    ensures |a| <= |b|
    decreases |b|
  {
    if a != {} {
      var x :| x in a;
      SubsetCard(a - {x}, b - {x});
    }
  }

  lemma CardAdd(s: set<string>, x: string)
    ensures |s + {x}| == |s| + (if x in s then 0 else 1)
  {
    if x in s {
      assert s + {x} == s;
    }
  }

  lemma CardRemove(s: set<string>, x: string)
    ensures |s - {x}| == |s| - (if x in s then 1 else 0)
  {
    if x !in s {
      assert s - {x} == s;
    }
  }

  /** `data.get("device_name") or detect_device_name(user agent)`: a missing
      or empty device name in the payload is guessed from the user agent. */
  function ResolveDeviceName(given: Option<string>, userAgent: string): (name: string)
    ensures IsTruthy(given) ==> name == given.value
    ensures !IsTruthy(given) ==> name == DetectDeviceName(userAgent)
    ensures !IsTruthy(given) ==> name in {WindowsDevice, AndroidDevice, IosDevice, MacDevice, UnknownDevice}
  {
    if IsTruthy(given) then given.value else DetectDeviceName(userAgent)
  }

  /** The store after `track_install` for a present device id: the device is
      installed under the given name and no other record changes. A new
      device starts with no deletions; a device at 0 is re-installed; a
      device at 1 keeps its counts. */
  function AfterInstall(m: Store, id: string, name: string, userAgent: string): (m': Store)
    ensures m'.Keys == m.Keys + {id}
    ensures forall other :: other in m && other != id ==> m'[other] == m[other]
    ensures m'[id].deviceName == name
    ensures id !in m ==> m'[id] == Tracker(1, 0, name, userAgent, ActionInstall)
    ensures id in m && m[id].installCount == 0 ==>
      m'[id] == m[id].(installCount := 1, deviceName := name, lastAction := ActionReinstall)
    ensures id in m && m[id].installCount != 0 ==>
      m'[id] == m[id].(deviceName := name, lastAction := ActionReopen)
    ensures ValidStore(m) ==> ValidStore(m') && m'[id].installCount == 1
  {
    var tracker :=
      if id !in m then Tracker(1, 0, name, userAgent, ActionInstall)
      else if m[id].installCount == 0 then m[id].(installCount := 1, deviceName := name, lastAction := ActionReinstall)
      else m[id].(deviceName := name, lastAction := ActionReopen);
    m[id := tracker]
  }

  /** The message `track_install` reports for a present device id. */
  function InstallMessage(m: Store, id: string): string
  {
    if id !in m then "New install tracked"
    else if m[id].installCount == 0 then "Re-install tracked (count restored)"
    else "Already tracked (count maintained)"
  }

  /** The install reply names the transition the record went through: a new
      record, a restored count, or a re-open of an installed app. */
  lemma InstallMessageNamesAction(m: Store, id: string, name: string, userAgent: string)
    ensures var action := AfterInstall(m, id, name, userAgent)[id].lastAction;
      && (InstallMessage(m, id) == "New install tracked" <==> action == ActionInstall)
      && (InstallMessage(m, id) == "Re-install tracked (count restored)" <==> action == ActionReinstall)
      && (InstallMessage(m, id) == "Already tracked (count maintained)" <==> action == ActionReopen)
  {
  }

  /** The store after `track_uninstall` for a present device id: an installed
      device drops to 0 and its deletion count rises by one; a device already
      at 0, or an unknown one, leaves the store as it was. */
  function AfterUninstall(m: Store, id: string): (m': Store)
    ensures m'.Keys == m.Keys
    ensures forall other :: other in m && other != id ==> m'[other] == m[other]
    ensures id in m && m[id].installCount == 1 ==>
      m'[id] == m[id].(installCount := 0, deletedCount := m[id].deletedCount + 1, lastAction := ActionUninstall)
    ensures !(id in m && m[id].installCount == 1) ==> m' == m
    ensures ValidStore(m) ==> ValidStore(m')
  {
    if id in m && m[id].installCount == 1 then
      m[id := m[id].(installCount := 0, deletedCount := m[id].deletedCount + 1, lastAction := ActionUninstall)]
    else m
  }

  /** Installing adds the device to the active set, and nothing else. */
  lemma ActiveAfterInstall(m: Store, id: string, name: string, userAgent: string)
    requires ValidStore(m)
    ensures ActiveIds(AfterInstall(m, id, name, userAgent)) == ActiveIds(m) + {id}
    ensures CountActive(AfterInstall(m, id, name, userAgent)) ==
      CountActive(m) + (if id in ActiveIds(m) then 0 else 1)
  {
    var m' := AfterInstall(m, id, name, userAgent);
    assert id in m' && m'[id].installCount == 1;
    var before, after := ActiveIds(m), ActiveIds(m');
    forall x
      ensures x in after <==> x in before || x == id
    {
      if x != id && x in m {
        assert m'[x] == m[x];
      }
    }
    assert after == before + {id};
    CardAdd(before, id);
  }

  /** Uninstalling removes the device from the active set, and nothing else. */
  lemma ActiveAfterUninstall(m: Store, id: string)
    ensures ActiveIds(AfterUninstall(m, id)) == ActiveIds(m) - {id}
    ensures CountActive(AfterUninstall(m, id)) ==
      CountActive(m) - (if id in ActiveIds(m) then 1 else 0)
  {
    var m' := AfterUninstall(m, id);
    forall x
      ensures x in ActiveIds(m') <==> x in ActiveIds(m) && x != id
    {
      if x != id && x in m {
        assert m'[x] == m[x];
      }
    }
    assert ActiveIds(m') == ActiveIds(m) - {id};
    CardRemove(ActiveIds(m), id);
  }

  /** Neither transition lowers any device's deletion count or drops a record. */
  lemma DeletedCountNeverDecreases(m: Store, id: string, name: string, userAgent: string)
    ensures forall d :: d in m ==>
      d in AfterInstall(m, id, name, userAgent) && AfterInstall(m, id, name, userAgent)[d].deletedCount == m[d].deletedCount
    ensures forall d :: d in m ==>
      d in AfterUninstall(m, id) && AfterUninstall(m, id)[d].deletedCount >= m[d].deletedCount
  {
  }

  /** A second uninstall of the same device changes nothing. */
  lemma UninstallIdempotent(m: Store, id: string)
    ensures AfterUninstall(AfterUninstall(m, id), id) == AfterUninstall(m, id)
  {
  }

  /** Install, uninstall, install of a device the store does not know ends
      installed, with one deletion, as a re-install. */
  lemma InstallUninstallReinstall(m: Store, id: string, name1: string, name2: string, userAgent: string)
    requires id !in m
    ensures var m' := AfterInstall(AfterUninstall(AfterInstall(m, id, name1, userAgent), id), id, name2, userAgent);
      && m'[id].installCount == 1
      && m'[id].deletedCount == 1
      && m'[id].lastAction == ActionReinstall
      && m'[id].deviceName == name2
      && (forall other :: other in m && other != id ==> m'[other] == m[other])
  {
  }

  datatype InstallResponse =
    | InstallFailed(message: string)
    | InstallSucceeded(message: string, device: string, totalActiveInstalls: nat)

  /** `total_active_installs` is reported only when the device is known. */
  datatype UninstallResponse =
    | UninstallFailed(message: string)
    | UninstallSucceeded(message: string, totalActiveInstalls: Option<nat>)

  /** The InstallTracker table, updated in place by the request handlers. */
  class InstallRegistry {
    var trackers: Store

    ghost predicate Valid()
      reads this
    {
      ValidStore(trackers)
    }

    constructor ()
      ensures Valid() && trackers == map[]
    {
      trackers := map[];
    }

    /** `InstallTracker.objects.filter(install_count=1).count()` */
    function ActiveCount(): (n: nat)
      reads this
      ensures n <= |trackers|
    {
      CountActiveBound(trackers);
      CountActive(trackers)
    }

    /** `track_install` with an already-parsed payload. */
    method TrackInstall(deviceId: Option<string>, deviceName: Option<string>, userAgent: string)
      returns (resp: InstallResponse)
      requires Valid()
      modifies this
      ensures Valid()
      ensures !IsTruthy(deviceId) ==> resp == InstallFailed("Device ID missing") && trackers == old(trackers)
      ensures IsTruthy(deviceId) ==>
        var name := ResolveDeviceName(deviceName, userAgent);
        && trackers == AfterInstall(old(trackers), deviceId.value, name, userAgent)
        && resp == InstallSucceeded(InstallMessage(old(trackers), deviceId.value), name, CountActive(trackers))
    {
      var name := ResolveDeviceName(deviceName, userAgent);
      if !IsTruthy(deviceId) {
        return InstallFailed("Device ID missing");
      }
      var id := deviceId.value;
      var message := "Already tracked (count maintained)";
      var tracker: Tracker;
      if id !in trackers {
        tracker := Tracker(1, 0, name, userAgent, ActionInstall);
        message := "New install tracked";
      } else if trackers[id].installCount == 0 {
        tracker := trackers[id].(installCount := 1, deviceName := name, lastAction := ActionReinstall);
        message := "Re-install tracked (count restored)";
      } else {
        tracker := trackers[id].(lastAction := ActionReopen, deviceName := name);
      }
      trackers := trackers[id := tracker];
      resp := InstallSucceeded(message, name, ActiveCount());
    }

    /** `track_uninstall` with an already-parsed payload. */
    method TrackUninstall(deviceId: Option<string>) returns (resp: UninstallResponse)
      requires Valid()
      modifies this
      ensures Valid()
      ensures !IsTruthy(deviceId) ==>
        resp == UninstallFailed("Device ID is required") && trackers == old(trackers)
      ensures IsTruthy(deviceId) && deviceId.value !in old(trackers) ==>
        resp == UninstallSucceeded("Tracker not found, but uninstall acknowledged", None)
        && trackers == old(trackers)
      ensures IsTruthy(deviceId) && deviceId.value in old(trackers) ==>
        && trackers == AfterUninstall(old(trackers), deviceId.value)
        && resp == UninstallSucceeded("Uninstall tracked", Some(CountActive(trackers)))
    {
      if !IsTruthy(deviceId) {
        return UninstallFailed("Device ID is required");
      }
      var id := deviceId.value;
      if id !in trackers {
        return UninstallSucceeded("Tracker not found, but uninstall acknowledged", None);
      }
      var tracker := trackers[id];
      if tracker.installCount == 1 {
        tracker := tracker.(installCount := 0, deletedCount := tracker.deletedCount + 1, lastAction := ActionUninstall);
        trackers := trackers[id := tracker];
      }
      resp := UninstallSucceeded("Uninstall tracked", Some(ActiveCount()));
    }

    /** `reset_install_data`: every record is deleted. */
    method ResetInstallData() returns (message: string)
      modifies this
      ensures Valid() && trackers == map[] && ActiveCount() == 0
      ensures message == "All install data has been reset."
    {
      trackers := map[];
      message := "All install data has been reset.";
    }
  }

  /** Install, uninstall and install again on a fresh registry: the device
      ends installed with one deletion, and the reported totals are 1, 0, 1. */
  method ReinstallScenario(id: string, userAgent: string) returns (last: Tracker, totals: seq<nat>)
    requires id != ""
    ensures last.installCount == 1 && last.deletedCount == 1 && last.lastAction == ActionReinstall
    ensures totals == [1, 0, 1]
  {
    var name := ResolveDeviceName(None, userAgent);
    var registry := new InstallRegistry();
    ActiveAfterInstall(map[], id, name, userAgent);
    var first := registry.TrackInstall(Some(id), None, userAgent);
    ActiveAfterUninstall(registry.trackers, id);
    var second := registry.TrackUninstall(Some(id));
    ActiveAfterInstall(registry.trackers, id, name, userAgent);
    var third := registry.TrackInstall(Some(id), None, userAgent);
    last := registry.trackers[id];
    totals := [first.totalActiveInstalls, second.totalActiveInstalls.value, third.totalActiveInstalls];
  }
}
