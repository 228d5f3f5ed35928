/**
 * The `volumes` field of a service and the top-level volume registry
 * (autocompose.py:147-174). Mounts without a source or target are skipped;
 * bind mounts are always kept; a managed volume whose name looks like a
 * runtime-generated one (64 lower-case hex digits) is kept only under
 * "include default volumes"; other mount types are dropped. A kept managed
 * volume is registered once, when its source path does not exist on the host,
 * with `external` telling whether it is anonymous.
 */
module Volumes {
  import opened Wrappers
  import opened AssocLists
  import opened Docker

  /** A top-level volume definition, `{'external': ...}`. */
  datatype VolumeDef = VolumeDef(external: bool)

  type VolumeRegistry = Assoc<string, VolumeDef>

  predicate IsHexDigit(c: char) {
    '0' <= c <= '9' || 'a' <= c <= 'f'
  }

  /** The runtime's naming convention for anonymous volumes (autocompose.py:163). */
  predicate IsAnonymousVolume(name: string) {
    |name| == 64 && forall i :: 0 <= i < |name| ==> IsHexDigit(name[i])
  }

  /** `f"{source}:{target}"`, with ":ro" for a read-only mount. */
  function MountString(m: Mount): string {
    m.source + ":" + m.target + (if m.rw then "" else ":ro")
  }

  predicate HasEndpoints(m: Mount) {
    m.source != "" && m.target != ""
  }

  /** A managed volume the service keeps. */
  predicate KeptVolume(m: Mount, includeDefault: bool) {
    HasEndpoints(m) && m.kind == "volume" && (includeDefault || !IsAnonymousVolume(m.name))
  }

  /** A mount the service lists: a kept managed volume or a bind mount. */
  predicate Kept(m: Mount, includeDefault: bool) {
    KeptVolume(m, includeDefault) || (HasEndpoints(m) && m.kind == "bind")
  }

  /** The service's volume strings, in mount order. */
  function ServiceVolumes(mounts: seq<Mount>, includeDefault: bool): seq<string> {
    if |mounts| == 0 then []
    else
      var m := mounts[|mounts| - 1];
      ServiceVolumes(mounts[..|mounts| - 1], includeDefault) + (if Kept(m, includeDefault) then [MountString(m)] else [])
  }

  /** How many of the mounts are kept. */
  function KeptCount(mounts: seq<Mount>, includeDefault: bool): nat {
    if |mounts| == 0 then 0
    else KeptCount(mounts[..|mounts| - 1], includeDefault) + (if Kept(mounts[|mounts| - 1], includeDefault) then 1 else 0)
  }

  /** The field: omitted when no mount is kept. */
  function VolumesField(mounts: seq<Mount>, includeDefault: bool): Option<seq<string>> {
    var v := ServiceVolumes(mounts, includeDefault);
    if |v| == 0 then None else Some(v)
  }

  /** Whether this mount adds a registry entry to `reg`. */
  predicate Registers(reg: VolumeRegistry, m: Mount, includeDefault: bool, paths: set<string>) {
    KeptVolume(m, includeDefault) && !HasKey(reg, m.name) && m.source !in paths
  }

  /** The registry after the mounts of one container. */
  function RegisterVolumes(reg: VolumeRegistry, mounts: seq<Mount>, includeDefault: bool, paths: set<string>): VolumeRegistry {
    if |mounts| == 0 then reg
    else
      var acc := RegisterVolumes(reg, mounts[..|mounts| - 1], includeDefault, paths);
      var m := mounts[|mounts| - 1];
      if Registers(acc, m, includeDefault, paths) then Put(acc, m.name, VolumeDef(IsAnonymousVolume(m.name))) else acc
  }

  /** One iteration of the loop at autocompose.py:148-173: a single mount. */
  method AddMount(m: Mount, includeDefault: bool, paths: set<string>, volumes: seq<string>, registry: VolumeRegistry)
    returns (volumesOut: seq<string>, registryOut: VolumeRegistry)
    ensures volumesOut == volumes + (if Kept(m, includeDefault) then [MountString(m)] else [])
    ensures registryOut == if Registers(registry, m, includeDefault, paths) then Put(registry, m.name, VolumeDef(IsAnonymousVolume(m.name))) else registry
  {
    volumesOut, registryOut := volumes, registry;
    if m.source == "" || m.target == "" {
      // skipped with a warning
      return;
    }
    var volumeStr := m.source + ":" + m.target;
    if !m.rw {
      volumeStr := volumeStr + ":ro";
    }
    assert volumeStr == MountString(m);
    assert volumes + [] == volumes;
    if m.kind == "volume" {
      var isDefault := IsAnonymousVolume(m.name);
      if includeDefault || !isDefault {
        volumesOut := volumesOut + [volumeStr];
        if !HasKey(registryOut, m.name) && m.source !in paths {
          registryOut := Put(registryOut, m.name, VolumeDef(isDefault));
        }
      }
    } else if m.kind == "bind" {
      volumesOut := volumesOut + [volumeStr];
    }
  }

  /** The loop of autocompose.py:148-173, updating the list and the registry in place. */
  method BuildVolumes(mounts: seq<Mount>, includeDefault: bool, paths: set<string>, registry: VolumeRegistry)
    returns (volumes: Option<seq<string>>, registryOut: VolumeRegistry)
    ensures volumes == VolumesField(mounts, includeDefault)
    ensures registryOut == RegisterVolumes(registry, mounts, includeDefault, paths)
  {
    var serviceVolumes: seq<string> := [];
    registryOut := registry;
    if |mounts| > 0 {
      var i := 0;
      while i < |mounts|
        invariant 0 <= i <= |mounts|
        invariant serviceVolumes == ServiceVolumes(mounts[..i], includeDefault)
        invariant registryOut == RegisterVolumes(registry, mounts[..i], includeDefault, paths)
      {
        assert mounts[..i + 1][..i] == mounts[..i];
        serviceVolumes, registryOut := AddMount(mounts[i], includeDefault, paths, serviceVolumes, registryOut);
        i := i + 1;
      }
      assert mounts[..|mounts|] == mounts;
    }
    volumes := if |serviceVolumes| > 0 then Some(serviceVolumes) else None;
  }

  /** A string is listed exactly when a kept mount (bind, or volume passing the filter) produces it. */
  lemma {:induction false} ServiceVolumesMembership(mounts: seq<Mount>, includeDefault: bool, s: string)
    ensures s in ServiceVolumes(mounts, includeDefault) <==>
      exists i :: 0 <= i < |mounts| && Kept(mounts[i], includeDefault) && MountString(mounts[i]) == s
  {
    if |mounts| > 0 {
      var pre := mounts[..|mounts| - 1];
      ServiceVolumesMembership(pre, includeDefault, s);
      if exists i :: 0 <= i < |pre| && Kept(pre[i], includeDefault) && MountString(pre[i]) == s {
        var i :| 0 <= i < |pre| && Kept(pre[i], includeDefault) && MountString(pre[i]) == s;
        assert mounts[i] == pre[i];
      }
      if exists i :: 0 <= i < |mounts| && Kept(mounts[i], includeDefault) && MountString(mounts[i]) == s {
        var i :| 0 <= i < |mounts| && Kept(mounts[i], includeDefault) && MountString(mounts[i]) == s;
        if i < |pre| { assert pre[i] == mounts[i]; }
      }
    }
  }

  /** One string per kept mount: dropped mounts leave no trace and kept ones are never merged. */
  lemma {:induction false} ServiceVolumesCount(mounts: seq<Mount>, includeDefault: bool)
    ensures |ServiceVolumes(mounts, includeDefault)| == KeptCount(mounts, includeDefault)
    ensures |ServiceVolumes(mounts, includeDefault)| <= |mounts|
    ensures (forall i :: 0 <= i < |mounts| ==> Kept(mounts[i], includeDefault)) ==> |ServiceVolumes(mounts, includeDefault)| == |mounts|
    ensures (forall i :: 0 <= i < |mounts| ==> !Kept(mounts[i], includeDefault)) ==> ServiceVolumes(mounts, includeDefault) == []
  {
    if |mounts| > 0 {
      ServiceVolumesCount(mounts[..|mounts| - 1], includeDefault);
    }
  }

  /** A registry entry, once made, is never overwritten. */
  lemma {:induction false} RegistryKept(reg: VolumeRegistry, mounts: seq<Mount>, includeDefault: bool, paths: set<string>, k: string)
    requires HasKey(reg, k)
    ensures Get(RegisterVolumes(reg, mounts, includeDefault, paths), k) == Get(reg, k)
  {
    if |mounts| > 0 {
      RegistryKept(reg, mounts[..|mounts| - 1], includeDefault, paths, k);
    }
  }

  /**
   * Every new entry comes from a kept managed volume of that name whose
   * source path does not exist, and is external exactly when anonymous.
   */
  lemma {:induction false} RegistryProvenance(reg: VolumeRegistry, mounts: seq<Mount>, includeDefault: bool, paths: set<string>, k: string)
    requires HasKey(RegisterVolumes(reg, mounts, includeDefault, paths), k) && !HasKey(reg, k)
    ensures Get(RegisterVolumes(reg, mounts, includeDefault, paths), k) == Some(VolumeDef(IsAnonymousVolume(k)))
    ensures exists i :: 0 <= i < |mounts| && KeptVolume(mounts[i], includeDefault) && mounts[i].name == k && mounts[i].source !in paths
  {
    var pre := mounts[..|mounts| - 1];
    var acc := RegisterVolumes(reg, pre, includeDefault, paths);
    var m := mounts[|mounts| - 1];
    if HasKey(acc, k) {
      RegistryProvenance(reg, pre, includeDefault, paths, k);
      var i :| 0 <= i < |pre| && KeptVolume(pre[i], includeDefault) && pre[i].name == k && pre[i].source !in paths;
      assert mounts[i] == pre[i];
    } else {
      assert Registers(acc, m, includeDefault, paths) && m.name == k;
    }
  }

  /** Every kept managed volume whose source path does not exist ends up registered. */
  lemma {:induction false} RegistryCoverage(reg: VolumeRegistry, mounts: seq<Mount>, includeDefault: bool, paths: set<string>, i: nat)
    requires i < |mounts| && KeptVolume(mounts[i], includeDefault) && mounts[i].source !in paths
    ensures HasKey(RegisterVolumes(reg, mounts, includeDefault, paths), mounts[i].name)
  {
    var pre := mounts[..|mounts| - 1];
    var acc := RegisterVolumes(reg, pre, includeDefault, paths);
    if i < |pre| {
      RegistryCoverage(reg, pre, includeDefault, paths, i);
      assert pre[i] == mounts[i];
      RegistryKept(acc, [mounts[|mounts| - 1]], includeDefault, paths, mounts[i].name);
      assert RegisterVolumes(acc, [mounts[|mounts| - 1]], includeDefault, paths)
          == RegisterVolumes(reg, mounts, includeDefault, paths) by {
        assert [mounts[|mounts| - 1]][..0] == [];
      }
    }
  }

  /**
   * Without "include default volumes", an anonymous volume is neither listed
   * nor registered; with it, the volume is listed and, when its path does not
   * exist and its name is new, registered as external.
   */
  lemma AnonymousVolume(m: Mount, includeDefault: bool, paths: set<string>, reg: VolumeRegistry)
    requires m.kind == "volume" && HasEndpoints(m) && IsAnonymousVolume(m.name)
    ensures !includeDefault ==> ServiceVolumes([m], includeDefault) == [] && RegisterVolumes(reg, [m], includeDefault, paths) == reg
    ensures includeDefault ==> ServiceVolumes([m], includeDefault) == [MountString(m)]
    ensures includeDefault && m.source !in paths && !HasKey(reg, m.name) ==>
      Get(RegisterVolumes(reg, [m], includeDefault, paths), m.name) == Some(VolumeDef(true))
  {
    assert [m][..0] == [];
  }
}
