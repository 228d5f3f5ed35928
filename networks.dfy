/**
 * The `networks` field of a service and the top-level network registry
 * (autocompose.py:177-216). The engine's unmodified default network
 * "bridge" is never listed; every other attached network is listed with
 * an empty configuration, and a name met for the first time is declared
 * at the top level unless the runtime reports its driver as "bridge".
 */
module Networks {
  import opened Wrappers
  import opened AssocLists
  import opened Docker

  /** A top-level network definition: `{'driver': d}`, or `{}` when `driver` is None. */
  datatype NetworkDef = NetworkDef(driver: Option<string>)

  type NetworkRegistry = Assoc<string, NetworkDef>

  /** The default network, exactly as the engine creates it (autocompose.py:185-188). */
  predicate IsUnmodifiedDefault(nets: map<string, Network>) {
    && "bridge" in nets
    && nets["bridge"].driver == "bridge"
    && !nets["bridge"].hasOptions
    && !nets["bridge"].internal
    && nets["bridge"].scope == "local"
  }

  /** The container is attached to nothing but the unmodified default network. */
  predicate OnlyDefaultBridge(names: seq<string>, nets: map<string, Network>) {
    |names| == 1 && names[0] == "bridge" && IsUnmodifiedDefault(nets)
  }

  /** A network the service does not list (autocompose.py:195-202). */
  predicate Skipped(name: string, nets: map<string, Network>) {
    name == "bridge" && IsUnmodifiedDefault(nets)
  }

  /**
   * What a first sighting of `name` declares (autocompose.py:208-213): the
   * runtime's driver when it is not "bridge" (an empty one gives `{}`),
   * nothing for a "bridge" driver, and `{}` when the lookup finds nothing.
   */
  function Declaration(name: string, nets: map<string, Network>): Option<NetworkDef> {
    if name !in nets then Some(NetworkDef(None))
    else if nets[name].driver == "bridge" then None
    else if nets[name].driver == "" then Some(NetworkDef(None))
    else Some(NetworkDef(Some(nets[name].driver)))
  }

  /** `d[name] = {}` on a dictionary whose values are all `{}`: its keys, in insertion order. */
  function AddName(names: seq<string>, name: string): seq<string> {
    if name in names then names else names + [name]
  }

  /** The keys of the service's `networks` mapping, in attachment order. */
  function AttachedNetworks(names: seq<string>, nets: map<string, Network>): seq<string> {
    if |names| == 0 then []
    else
      var acc := AttachedNetworks(names[..|names| - 1], nets);
      var name := names[|names| - 1];
      if Skipped(name, nets) then acc else AddName(acc, name)
  }

  /** The field: omitted when nothing is listed. */
  function NetworksField(names: seq<string>, nets: map<string, Network>): Option<seq<string>> {
    var a := AttachedNetworks(names, nets);
    if |a| == 0 then None else Some(a)
  }

  /** The registry after one attachment. */
  function RegisterNetwork(reg: NetworkRegistry, name: string, nets: map<string, Network>): NetworkRegistry {
    if Skipped(name, nets) || HasKey(reg, name) then reg
    else match Declaration(name, nets)
      case None => reg
      case Some(d) => Put(reg, name, d)
  }

  /** The registry after the attachments of one container, in order. */
  function RegisterNetworks(reg: NetworkRegistry, names: seq<string>, nets: map<string, Network>): NetworkRegistry {
    if |names| == 0 then reg
    else RegisterNetwork(RegisterNetworks(reg, names[..|names| - 1], nets), names[|names| - 1], nets)
  }

  /** One iteration of the loop at autocompose.py:194-213. */
  method AddNetwork(name: string, nets: map<string, Network>, attached: seq<string>, registry: NetworkRegistry)
    returns (attachedOut: seq<string>, registryOut: NetworkRegistry)
    ensures attachedOut == if Skipped(name, nets) then attached else AddName(attached, name)
    ensures registryOut == RegisterNetwork(registry, name, nets)
  {
    attachedOut, registryOut := attached, registry;
    if name == "bridge" {
      if "bridge" in nets {
        var n := nets["bridge"];
        if n.driver == "bridge" && !n.hasOptions && !n.internal && n.scope == "local" {
          return;
        }
      }
    }
    if name !in attachedOut {
      attachedOut := attachedOut + [name];
    }
    if !HasKey(registryOut, name) {
      if name in nets {
        var driver := nets[name].driver;
        if driver != "bridge" {
          registryOut := Put(registryOut, name, NetworkDef(if driver != "" then Some(driver) else None));
        }
      } else {
        registryOut := Put(registryOut, name, NetworkDef(None));
      }
    }
  }

  /** The block at autocompose.py:178-216, with its early test for the default network alone. */
  method BuildNetworks(names: seq<string>, nets: map<string, Network>, registry: NetworkRegistry)
    returns (networks: Option<seq<string>>, registryOut: NetworkRegistry)
    ensures networks == NetworksField(names, nets)
    ensures registryOut == RegisterNetworks(registry, names, nets)
  {
    networks, registryOut := None, registry;
    if |names| == 0 {
      return;
    }
    var onlyDefault := |names| == 1 && names[0] == "bridge" && IsUnmodifiedDefault(nets);
    var attached: seq<string> := [];
    if onlyDefault {
      DefaultBridgeAlone(names, nets, registry);
    } else {
      var i := 0;
      while i < |names|
        invariant 0 <= i <= |names|
        invariant attached == AttachedNetworks(names[..i], nets)
        invariant registryOut == RegisterNetworks(registry, names[..i], nets)
      {
        assert names[..i + 1][..i] == names[..i];
        attached, registryOut := AddNetwork(names[i], nets, attached, registryOut);
        i := i + 1;
      }
      assert names[..|names|] == names;
    }
    if |attached| > 0 {
      networks := Some(attached);
    }
  }

  /**
   * Attached to the unmodified default network alone, a service has no
   * `networks` field and declares nothing, so the early test at
   * autocompose.py:181-191 agrees with the per-network test.
   */
  lemma DefaultBridgeAlone(names: seq<string>, nets: map<string, Network>, reg: NetworkRegistry)
    requires OnlyDefaultBridge(names, nets)
    ensures AttachedNetworks(names, nets) == []
    ensures RegisterNetworks(reg, names, nets) == reg
  {
    assert names[..0] == [];
  }

  /** A network is listed exactly when the container is attached to it and it is not skipped. */
  lemma {:induction false} AttachedMembership(names: seq<string>, nets: map<string, Network>, name: string)
    ensures name in AttachedNetworks(names, nets) <==> name in names && !Skipped(name, nets)
  {
    if |names| > 0 {
      var pre := names[..|names| - 1];
      AttachedMembership(pre, nets, name);
      assert names == pre + [names[|names| - 1]];
    }
  }

  predicate NoDuplicates(s: seq<string>) {
    forall i, j :: 0 <= i < j < |s| ==> s[i] != s[j]
  }

  /** The listed networks are distinct, as keys of a mapping are. */
  lemma {:induction false} AttachedDistinct(names: seq<string>, nets: map<string, Network>)
    ensures NoDuplicates(AttachedNetworks(names, nets))
  {
    if |names| > 0 {
      var pre := names[..|names| - 1];
      AttachedDistinct(pre, nets);
      var acc := AttachedNetworks(pre, nets);
      var name := names[|names| - 1];
      if !Skipped(name, nets) && name !in acc {
        var a := acc + [name];
        forall i, j | 0 <= i < j < |a| ensures a[i] != a[j] {
          assert a[i] == acc[i];
          if j < |acc| {
            assert a[j] == acc[j];
          } else {
            assert acc[i] in acc;
          }
        }
      }
    }
  }

  /** A registry entry, once made, is never overwritten. */
  lemma {:induction false} RegistryKept(reg: NetworkRegistry, names: seq<string>, nets: map<string, Network>, k: string)
    requires HasKey(reg, k)
    ensures Get(RegisterNetworks(reg, names, nets), k) == Get(reg, k)
  {
    if |names| > 0 {
      RegistryKept(reg, names[..|names| - 1], nets, k);
    }
  }

  /** What one attachment does to a key of the registry. */
  lemma RegisterNetworkFacts(reg: NetworkRegistry, name: string, nets: map<string, Network>, k: string)
    ensures HasKey(reg, k) ==> Get(RegisterNetwork(reg, name, nets), k) == Get(reg, k)
    ensures !HasKey(reg, k) && HasKey(RegisterNetwork(reg, name, nets), k) ==>
      k == name && !Skipped(name, nets) && Declaration(name, nets).Some? && Get(RegisterNetwork(reg, name, nets), k) == Declaration(name, nets)
  {
  }

  /** A new entry comes from an attached, listed network and holds what its lookup declares. */
  lemma {:induction false} RegistryProvenance(reg: NetworkRegistry, names: seq<string>, nets: map<string, Network>, k: string)
    requires HasKey(RegisterNetworks(reg, names, nets), k) && !HasKey(reg, k)
    ensures k in names && !Skipped(k, nets)
    ensures Declaration(k, nets).Some? && Get(RegisterNetworks(reg, names, nets), k) == Declaration(k, nets)
  {
    var pre := names[..|names| - 1];
    var acc := RegisterNetworks(reg, pre, nets);
    var last := names[|names| - 1];
    assert names == pre + [last];
    RegisterNetworkFacts(acc, last, nets, k);
    if HasKey(acc, k) {
      RegistryProvenance(reg, pre, nets, k);
    }
  }

  /**
   * Every listed network is declared at the top level, except one whose
   * driver the runtime reports as "bridge".
   */
  lemma {:induction false} ListedAreDeclared(reg: NetworkRegistry, names: seq<string>, nets: map<string, Network>, name: string)
    requires name in AttachedNetworks(names, nets)
    ensures HasKey(RegisterNetworks(reg, names, nets), name) || (name in nets && nets[name].driver == "bridge")
  {
    var pre := names[..|names| - 1];
    var acc := RegisterNetworks(reg, pre, nets);
    var last := names[|names| - 1];
    if name in AttachedNetworks(pre, nets) {
      ListedAreDeclared(reg, pre, nets, name);
      if HasKey(acc, name) {
        RegistryKept(acc, [last], nets, name);
        assert [last][..0] == [];
      }
    }
  }

  /**
   * A user-defined network with the "bridge" driver is listed on the service
   * but not declared at the top level.
   */
  lemma UserBridgeNetworkUndeclared()
    ensures var nets := map["appnet" := Network("bridge", false, false, "local")];
      && NetworksField(["appnet"], nets) == Some(["appnet"])
      && RegisterNetworks([], ["appnet"], nets) == []
  {
    var nets := map["appnet" := Network("bridge", false, false, "local")];
    var names := ["appnet"];
    assert names[..0] == [];
    assert AttachedNetworks(names, nets) == ["appnet"];
    assert Declaration("appnet", nets) == None;
  }

  /** A user-defined network with another driver is listed and declared with that driver. */
  lemma OverlayNetworkDeclared()
    ensures var nets := map["appnet" := Network("overlay", false, false, "swarm")];
      && NetworksField(["appnet"], nets) == Some(["appnet"])
      && RegisterNetworks([], ["appnet"], nets) == [("appnet", NetworkDef(Some("overlay")))]
  {
    var nets := map["appnet" := Network("overlay", false, false, "swarm")];
    var names := ["appnet"];
    assert names[..0] == [];
    assert AttachedNetworks(names, nets) == ["appnet"];
    assert Declaration("appnet", nets) == Some(NetworkDef(Some("overlay")));
  }
}
