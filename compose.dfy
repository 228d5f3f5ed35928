/**
 * `generate_compose` (autocompose.py:23-260): the Compose document for a
 * list of container names or ids, read against a snapshot of the host.
 */
module Compose {
  import opened Wrappers
  import opened AssocLists
  import opened Docker
  import Volumes
  import Networks
  import Services

  const ComposeVersion := "3.8"

  /** The document: `services` always, `networks` and `volumes` only when non-empty. */
  datatype Document = Document(
    version: string,
    services: Assoc<string, Services.ServiceRecord>,
    networks: Option<Networks.NetworkRegistry>,
    volumes: Option<Volumes.VolumeRegistry>)

  /** What the loop carries from one container to the next. */
  datatype State = State(
    services: Assoc<string, Services.ServiceRecord>,
    networks: Networks.NetworkRegistry,
    volumes: Volumes.VolumeRegistry)

  function Initial(): State {
    State([], [], [])
  }

  /** Whether inspecting `id` stores a service under `name` (autocompose.py:246-248). */
  predicate Stores(host: Host, id: string, name: string) {
    && id in host.containers
    && Services.ServiceName(host.containers[id]) == name
    && Truthy(Services.ResolveImage(host.containers[id], host.images))
  }

  /**
   * One container: skipped when the lookup fails; otherwise its volumes and
   * networks are registered, and its service is stored only when it has an image.
   */
  function Step(st: State, host: Host, id: string, includeAllEnv: bool, includeDefaultVolumes: bool): State {
    if id !in host.containers then st
    else
      var c := host.containers[id];
      var s := Services.ServiceOf(c, host, includeAllEnv, includeDefaultVolumes);
      State(
        if Truthy(Services.ResolveImage(c, host.images)) then Put(st.services, Services.ServiceName(c), s) else st.services,
        Networks.RegisterNetworks(st.networks, c.networks, host.networks),
        Volumes.RegisterVolumes(st.volumes, c.mounts, includeDefaultVolumes, host.paths))
  }

  /** The state after inspecting `ids` in order. */
  function RunFrom(st: State, host: Host, ids: seq<string>, includeAllEnv: bool, includeDefaultVolumes: bool): State {
    if |ids| == 0 then st
    else Step(RunFrom(st, host, ids[..|ids| - 1], includeAllEnv, includeDefaultVolumes), host, ids[|ids| - 1], includeAllEnv, includeDefaultVolumes)
  }

  /** The document made from the final state (autocompose.py:254-260). */
  function Finish(st: State): Document {
    Document(
      ComposeVersion,
      st.services,
      if |st.networks| > 0 then Some(st.networks) else None,
      if |st.volumes| > 0 then Some(st.volumes) else None)
  }

  function ComposeOf(host: Host, ids: seq<string>, includeAllEnv: bool, includeDefaultVolumes: bool): Document {
    Finish(RunFrom(Initial(), host, ids, includeAllEnv, includeDefaultVolumes))
  }

  /** `generate_compose`: the loop over the containers, then the top-level sections. */
  method GenerateCompose(host: Host, ids: seq<string>, includeAllEnv: bool, includeDefaultVolumes: bool)
    returns (doc: Document)
    ensures doc == ComposeOf(host, ids, includeAllEnv, includeDefaultVolumes)
  {
    var services: Assoc<string, Services.ServiceRecord> := [];
    var networksToCreate: Networks.NetworkRegistry := [];
    var volumesToCreate: Volumes.VolumeRegistry := [];
    var i := 0;
    while i < |ids|
      invariant 0 <= i <= |ids|
      invariant State(services, networksToCreate, volumesToCreate) == RunFrom(Initial(), host, ids[..i], includeAllEnv, includeDefaultVolumes)
    {
      assert ids[..i + 1][..i] == ids[..i];
      var id := ids[i];
      i := i + 1;
      if id !in host.containers {
        // NotFound or APIError: a warning, and the next container
        continue;
      }
      var c := host.containers[id];
      var serviceName := Services.ServiceName(c);
      var service;
      service, volumesToCreate, networksToCreate :=
        Services.BuildService(c, host, includeAllEnv, includeDefaultVolumes, volumesToCreate, networksToCreate);
      if Truthy(service.image) {
        services := Put(services, serviceName, service);
      }
    }
    assert ids[..|ids|] == ids;
    doc := Document(ComposeVersion, services, None, None);
    if |networksToCreate| > 0 {
      doc := doc.(networks := Some(networksToCreate));
    }
    if |volumesToCreate| > 0 {
      doc := doc.(volumes := Some(volumesToCreate));
    }
  }

  /** Inspecting two lists in a row is inspecting their concatenation. */
  lemma {:induction false} RunFromAppend(st: State, host: Host, a: seq<string>, b: seq<string>, includeAllEnv: bool, includeDefaultVolumes: bool)
    ensures RunFrom(st, host, a + b, includeAllEnv, includeDefaultVolumes)
         == RunFrom(RunFrom(st, host, a, includeAllEnv, includeDefaultVolumes), host, b, includeAllEnv, includeDefaultVolumes)
    decreases |b|
  {
    if |b| == 0 {
      assert a + b == a;
    } else {
      assert (a + b)[..|a + b| - 1] == a + b[..|b| - 1];
      RunFromAppend(st, host, a, b[..|b| - 1], includeAllEnv, includeDefaultVolumes);
    }
  }

  /** A name or id the runtime does not know changes nothing anywhere in the document. */
  lemma UnknownIdIgnored(host: Host, pre: seq<string>, id: string, post: seq<string>, includeAllEnv: bool, includeDefaultVolumes: bool)
    requires id !in host.containers
    ensures ComposeOf(host, pre + [id] + post, includeAllEnv, includeDefaultVolumes)
         == ComposeOf(host, pre + post, includeAllEnv, includeDefaultVolumes)
  {
    var st := RunFrom(Initial(), host, pre, includeAllEnv, includeDefaultVolumes);
    RunFromAppend(Initial(), host, pre + [id], post, includeAllEnv, includeDefaultVolumes);
    RunFromAppend(Initial(), host, pre, [id], includeAllEnv, includeDefaultVolumes);
    RunFromAppend(Initial(), host, pre, post, includeAllEnv, includeDefaultVolumes);
    assert [id][..0] == [];
    assert RunFrom(st, host, [id], includeAllEnv, includeDefaultVolumes) == st;
  }

  // The services section is the dictionary fill `PutAll` over the ids, with
  // the three functions below; the general facts about it come from there.

  /** Whether inspecting `id` stores a service at all. */
  function Kept(host: Host): string -> bool {
    id => id in host.containers && Truthy(Services.ResolveImage(host.containers[id], host.images))
  }

  function NameFor(host: Host): string -> string {
    id => if id in host.containers then Services.ServiceName(host.containers[id]) else ""
  }

  /** A record no lookup produces; `ServiceFor` gives it only for ids `Kept` rejects. */
  const NoService := Services.ServiceRecord(None, None, None, None, None, None, None, false, None, None, None, None, None, None, None, None, None)

  function ServiceFor(host: Host, includeAllEnv: bool, includeDefaultVolumes: bool): string -> Services.ServiceRecord {
    id => if id in host.containers then Services.ServiceOf(host.containers[id], host, includeAllEnv, includeDefaultVolumes) else NoService
  }

  /** The loop's services are the fill of the inspected ids. */
  lemma {:induction false} RunServices(st: State, host: Host, ids: seq<string>, includeAllEnv: bool, includeDefaultVolumes: bool)
    ensures RunFrom(st, host, ids, includeAllEnv, includeDefaultVolumes).services
         == PutAll(st.services, ids, Kept(host), NameFor(host), ServiceFor(host, includeAllEnv, includeDefaultVolumes))
  {
    if |ids| > 0 {
      RunServices(st, host, ids[..|ids| - 1], includeAllEnv, includeDefaultVolumes);
      PutAllStep(st.services, ids, Kept(host), NameFor(host), ServiceFor(host, includeAllEnv, includeDefaultVolumes));
    }
  }

  /** A service is stored under a name exactly when it was already there or some container stores one under it. */
  lemma ServicePresence(st: State, host: Host, ids: seq<string>, includeAllEnv: bool, includeDefaultVolumes: bool, name: string)
    ensures HasKey(RunFrom(st, host, ids, includeAllEnv, includeDefaultVolumes).services, name) <==>
      HasKey(st.services, name) || exists i :: 0 <= i < |ids| && Stores(host, ids[i], name)
  {
    RunServices(st, host, ids, includeAllEnv, includeDefaultVolumes);
    PutAllPresence(st.services, ids, Kept(host), NameFor(host), ServiceFor(host, includeAllEnv, includeDefaultVolumes), name);
    assert forall i :: 0 <= i < |ids| ==> (Stores(host, ids[i], name) <==> Kept(host)(ids[i]) && NameFor(host)(ids[i]) == name);
  }

  /**
   * Last wins: the service under a name is the one built for the last
   * container that stores one under that name.
   */
  lemma ServiceLastWins(st: State, host: Host, ids: seq<string>, includeAllEnv: bool, includeDefaultVolumes: bool, i: nat)
    requires i < |ids| && ids[i] in host.containers && Truthy(Services.ResolveImage(host.containers[ids[i]], host.images))
    requires forall j :: i < j < |ids| ==> !Stores(host, ids[j], Services.ServiceName(host.containers[ids[i]]))
    ensures Get(RunFrom(st, host, ids, includeAllEnv, includeDefaultVolumes).services, Services.ServiceName(host.containers[ids[i]]))
         == Some(Services.ServiceOf(host.containers[ids[i]], host, includeAllEnv, includeDefaultVolumes))
  {
    var keep, key := Kept(host), NameFor(host);
    RunServices(st, host, ids, includeAllEnv, includeDefaultVolumes);
    forall j | i < j < |ids| ensures !(keep(ids[j]) && key(ids[j]) == key(ids[i])) {
      assert !Stores(host, ids[j], Services.ServiceName(host.containers[ids[i]]));
    }
    PutAllLastWins(st.services, ids, keep, key, ServiceFor(host, includeAllEnv, includeDefaultVolumes), i);
  }

  predicate HasImage(s: Services.ServiceRecord) {
    Truthy(s.image)
  }

  /** Every stored service has a truthy image. */
  predicate AllHaveImages(services: Assoc<string, Services.ServiceRecord>) {
    forall p :: p in services ==> HasImage(p.1)
  }

  lemma ServicesHaveImages(st: State, host: Host, ids: seq<string>, includeAllEnv: bool, includeDefaultVolumes: bool)
    requires AllHaveImages(st.services)
    ensures AllHaveImages(RunFrom(st, host, ids, includeAllEnv, includeDefaultVolumes).services)
  {
    var keep, val := Kept(host), ServiceFor(host, includeAllEnv, includeDefaultVolumes);
    RunServices(st, host, ids, includeAllEnv, includeDefaultVolumes);
    forall i | 0 <= i < |ids| && keep(ids[i]) ensures HasImage(val(ids[i])) {
      ImageOfService(host, ids[i], includeAllEnv, includeDefaultVolumes);
    }
    PutAllValues(st.services, ids, keep, NameFor(host), val, HasImage);
  }

  lemma ImageOfService(host: Host, id: string, includeAllEnv: bool, includeDefaultVolumes: bool)
    requires id in host.containers
    ensures Services.ServiceOf(host.containers[id], host, includeAllEnv, includeDefaultVolumes).image
         == Services.ResolveImage(host.containers[id], host.images)
  {
  }

  /** Service names in the document are distinct. */
  lemma ServicesDistinct(st: State, host: Host, ids: seq<string>, includeAllEnv: bool, includeDefaultVolumes: bool)
    requires DistinctKeys(st.services)
    ensures DistinctKeys(RunFrom(st, host, ids, includeAllEnv, includeDefaultVolumes).services)
  {
    RunServices(st, host, ids, includeAllEnv, includeDefaultVolumes);
    PutAllDistinct(st.services, ids, Kept(host), NameFor(host), ServiceFor(host, includeAllEnv, includeDefaultVolumes));
  }

  /** A network a service lists is declared at the top level, or has the "bridge" driver. */
  predicate DeclaredOrBridge(reg: Networks.NetworkRegistry, nets: map<string, Network>, name: string) {
    HasKey(reg, name) || (name in nets && nets[name].driver == "bridge")
  }

  predicate NetworksDeclared(st: State, nets: map<string, Network>) {
    forall p, name :: p in st.services && p.1.networks.Some? && name in p.1.networks.value ==> DeclaredOrBridge(st.networks, nets, name)
  }

  /** A later container never takes a declaration away. */
  lemma StepKeepsDeclared(st: State, host: Host, id: string, includeAllEnv: bool, includeDefaultVolumes: bool, name: string)
    requires DeclaredOrBridge(st.networks, host.networks, name)
    ensures DeclaredOrBridge(Step(st, host, id, includeAllEnv, includeDefaultVolumes).networks, host.networks, name)
  {
    if id in host.containers && HasKey(st.networks, name) {
      Networks.RegistryKept(st.networks, host.containers[id].networks, host.networks, name);
    }
  }

  lemma StepNetworksDeclared(st: State, host: Host, id: string, includeAllEnv: bool, includeDefaultVolumes: bool)
    requires NetworksDeclared(st, host.networks)
    ensures NetworksDeclared(Step(st, host, id, includeAllEnv, includeDefaultVolumes), host.networks)
  {
    var st' := Step(st, host, id, includeAllEnv, includeDefaultVolumes);
    if id in host.containers {
      var c := host.containers[id];
      var s := Services.ServiceOf(c, host, includeAllEnv, includeDefaultVolumes);
      var k := Services.ServiceName(c);
      PutPairs(st.services, k, s);
      forall p, name | p in st'.services && p.1.networks.Some? && name in p.1.networks.value
        ensures DeclaredOrBridge(st'.networks, host.networks, name)
      {
        if p in st.services {
          StepKeepsDeclared(st, host, id, includeAllEnv, includeDefaultVolumes, name);
        } else {
          assert p == (k, s);
          Networks.ListedAreDeclared(st.networks, c.networks, host.networks, name);
        }
      }
    }
  }

  lemma {:induction false} RunNetworksDeclared(st: State, host: Host, ids: seq<string>, includeAllEnv: bool, includeDefaultVolumes: bool)
    requires NetworksDeclared(st, host.networks)
    ensures NetworksDeclared(RunFrom(st, host, ids, includeAllEnv, includeDefaultVolumes), host.networks)
  {
    if |ids| > 0 {
      RunNetworksDeclared(st, host, ids[..|ids| - 1], includeAllEnv, includeDefaultVolumes);
      StepNetworksDeclared(RunFrom(st, host, ids[..|ids| - 1], includeAllEnv, includeDefaultVolumes), host, ids[|ids| - 1], includeAllEnv, includeDefaultVolumes);
    }
  }

  /**
   * The whole document: version 3.8, distinct service names, every service
   * with an image, and every network a service lists declared under
   * `networks` unless its driver is "bridge"; the top-level sections are
   * never empty.
   */
  lemma DocumentWellFormed(host: Host, ids: seq<string>, includeAllEnv: bool, includeDefaultVolumes: bool)
    ensures var doc := ComposeOf(host, ids, includeAllEnv, includeDefaultVolumes);
      && doc.version == ComposeVersion
      && DistinctKeys(doc.services)
      && AllHaveImages(doc.services)
      && (doc.networks.Some? ==> |doc.networks.value| > 0)
      && (doc.volumes.Some? ==> |doc.volumes.value| > 0)
      && forall p, name :: p in doc.services && p.1.networks.Some? && name in p.1.networks.value ==>
           (doc.networks.Some? && HasKey(doc.networks.value, name)) || (name in host.networks && host.networks[name].driver == "bridge")
  {
    ServicesDistinct(Initial(), host, ids, includeAllEnv, includeDefaultVolumes);
    ServicesHaveImages(Initial(), host, ids, includeAllEnv, includeDefaultVolumes);
    RunNetworksDeclared(Initial(), host, ids, includeAllEnv, includeDefaultVolumes);
    var st := RunFrom(Initial(), host, ids, includeAllEnv, includeDefaultVolumes);
    forall p, name | p in st.services && p.1.networks.Some? && name in p.1.networks.value
      ensures (|st.networks| > 0 && HasKey(st.networks, name)) || (name in host.networks && host.networks[name].driver == "bridge")
    {
      assert DeclaredOrBridge(st.networks, host.networks, name);
      GetSpec(st.networks, name);
    }
  }

  /** A single container with an image gives a document with exactly its service. */
  lemma SingleContainer(host: Host, id: string, includeAllEnv: bool, includeDefaultVolumes: bool)
    requires id in host.containers && Truthy(Services.ResolveImage(host.containers[id], host.images))
    ensures ComposeOf(host, [id], includeAllEnv, includeDefaultVolumes).services
         == [(Services.ServiceName(host.containers[id]), Services.ServiceOf(host.containers[id], host, includeAllEnv, includeDefaultVolumes))]
  {
    assert [id][..0] == [];
    var c := host.containers[id];
    var s := Services.ServiceOf(c, host, includeAllEnv, includeDefaultVolumes);
    var services: Assoc<string, Services.ServiceRecord> := [];
    assert RunFrom(Initial(), host, [id], includeAllEnv, includeDefaultVolumes) == Step(Initial(), host, id, includeAllEnv, includeDefaultVolumes);
    assert Step(Initial(), host, id, includeAllEnv, includeDefaultVolumes).services == Put(services, Services.ServiceName(c), s);
    assert Put(services, Services.ServiceName(c), s) == [(Services.ServiceName(c), s)];
  }
}
