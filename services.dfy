/**
 * One service of the Compose document: the body of the per-container loop of
 * `generate_compose` (autocompose.py:45-248). A field is written only when
 * the container's value is truthy, in the order the source writes them.
 */
module Services {
  import opened Wrappers
  import opened AssocLists
  import opened Text
  import opened Docker
  import Environment
  import Ports
  import Volumes
  import Networks

  const UnknownImage := "unknown_image_due_to_error"

  /** The service mapping, one field per key the source may write, in its order. */
  datatype ServiceRecord = ServiceRecord(
    image: Option<string>,
    command: Option<string>,
    environment: Option<Environment.EnvMap>,
    ports: Option<seq<string>>,
    volumes: Option<seq<string>>,
    networks: Option<seq<string>>,  // each listed with the configuration {}
    restart: Option<string>,
    privileged: bool,               // `privileged: true` is written exactly when this holds
    user: Option<string>,
    pid: Option<string>,
    uts: Option<string>,
    workingDir: Option<string>,
    entrypoint: Option<string>,
    capAdd: Option<seq<string>>,
    capDrop: Option<seq<string>>,
    devices: Option<seq<string>>,
    labels: Option<Assoc<string, string>>)

  /**
   * `attrs['Name'].lstrip('/')`, or the short id when nothing is left
   * (autocompose.py:45-47).
   */
  function ServiceName(c: Container): (r: string)
    ensures (forall k :: 0 <= k < |c.name| ==> c.name[k] == '/') ==> r == c.shortId
    ensures (exists k :: 0 <= k < |c.name| && c.name[k] != '/') ==>
      && |r| <= |c.name| && r == c.name[|c.name| - |r|..]
      && r != [] && r[0] != '/'
      && forall k :: 0 <= k < |c.name| - |r| ==> c.name[k] == '/'
  {
    var stripped := StripLeading(c.name, '/');
    if stripped != "" then stripped else c.shortId
  }

  /**
   * The image a service gets (autocompose.py:53-79): the first tag of the
   * image the container runs, else a truthy `Config.Image`, else the raw
   * image id; `Config.Image` as it is when the image is not found; and
   * `Config.Image`, or a fixed placeholder when that key is absent, when the
   * lookup fails otherwise. None when the container names no image at all.
   */
  function ResolveImage(c: Container, images: map<string, ImageResult>): Option<string> {
    if c.imageRef != "" then
      if c.imageRef !in images then c.configImage
      else match images[c.imageRef]
        case ApiError => Some(c.configImage.GetOr(UnknownImage))
        case Tags(tags) =>
          if |tags| > 0 then Some(tags[0])
          else if Truthy(c.configImage) then c.configImage
          else Some(c.imageRef)
    else if Truthy(c.configImage) then c.configImage
    else None
  }

  /** `" ".join(args)` when the list is truthy (autocompose.py:83-84, 231-232). */
  function JoinedArgs(args: seq<string>): Option<string> {
    if |args| == 0 then None else Some(Join(args, " "))
  }

  /** A text field written only when truthy. */
  function TextField(s: string): (r: Option<string>)
    ensures r.Some? <==> s != ""
    ensures r.Some? ==> r.value == s
  {
    if s == "" then None else Some(s)
  }

  /** A list field written only when truthy. */
  function ListField<T>(s: seq<T>): (r: Option<seq<T>>)
    ensures r.Some? <==> |s| > 0
    ensures r.Some? ==> r.value == s
  {
    if |s| == 0 then None else Some(s)
  }

  /** The restart policy, unless absent or "no" (autocompose.py:220-223). */
  function RestartField(policy: string): (r: Option<string>)
    ensures r.Some? <==> policy != "" && policy != "no"
    ensures r.Some? ==> r.value == policy
  {
    if policy != "" && policy != "no" then Some(policy) else None
  }

  /** `f"{PathOnHost}:{PathInContainer}:{CgroupPermissions}"`. */
  function DeviceString(d: Device): string {
    d.pathOnHost + ":" + d.pathInContainer + ":" + d.cgroupPermissions
  }

  function DeviceStrings(devices: seq<Device>): (r: seq<string>)
    ensures |r| == |devices|
    ensures forall i :: 0 <= i < |devices| ==> r[i] == DeviceString(devices[i])
  {
    if |devices| == 0 then [] else [DeviceString(devices[0])] + DeviceStrings(devices[1..])
  }

  /** The service built for a container, whatever becomes of it afterwards. */
  function ServiceOf(c: Container, host: Host, includeAllEnv: bool, includeDefaultVolumes: bool): ServiceRecord {
    ServiceRecord(
      image := ResolveImage(c, host.images),
      command := JoinedArgs(c.cmd),
      environment := Environment.EnvironmentField(c.env, Environment.ExcludedKeys(c.labels), includeAllEnv),
      ports := Ports.PortsField(c.ports),
      volumes := Volumes.VolumesField(c.mounts, includeDefaultVolumes),
      networks := Networks.NetworksField(c.networks, host.networks),
      restart := RestartField(c.restartPolicy),
      privileged := c.privileged,
      user := TextField(c.user),
      pid := TextField(c.pidMode),
      uts := TextField(c.utsMode),
      workingDir := TextField(c.workingDir),
      entrypoint := JoinedArgs(c.entrypoint),
      capAdd := ListField(c.capAdd),
      capDrop := ListField(c.capDrop),
      devices := ListField(DeviceStrings(c.devices)),
      labels := ListField(c.labels))
  }

  /**
   * The per-container body of the loop in `generate_compose`, field by field,
   * also updating the document-wide volume and network registries.
   */
  method BuildService(c: Container, host: Host, includeAllEnv: bool, includeDefaultVolumes: bool,
                      volumeRegistry: Volumes.VolumeRegistry, networkRegistry: Networks.NetworkRegistry)
    returns (service: ServiceRecord, volumeRegistryOut: Volumes.VolumeRegistry, networkRegistryOut: Networks.NetworkRegistry)
    ensures service == ServiceOf(c, host, includeAllEnv, includeDefaultVolumes)
    ensures volumeRegistryOut == Volumes.RegisterVolumes(volumeRegistry, c.mounts, includeDefaultVolumes, host.paths)
    ensures networkRegistryOut == Networks.RegisterNetworks(networkRegistry, c.networks, host.networks)
  {
    var image := ResolveImage(c, host.images);
    var command := if |c.cmd| > 0 then Some(Join(c.cmd, " ")) else None;
    var excluded := Environment.ExcludedKeys(c.labels);
    var environment := Environment.BuildEnvironment(c.env, excluded, includeAllEnv);
    var ports := Ports.BuildPorts(c.ports);
    var volumes;
    volumes, volumeRegistryOut := Volumes.BuildVolumes(c.mounts, includeDefaultVolumes, host.paths, volumeRegistry);
    var networks;
    networks, networkRegistryOut := Networks.BuildNetworks(c.networks, host.networks, networkRegistry);
    var restart := if c.restartPolicy != "" && c.restartPolicy != "no" then Some(c.restartPolicy) else None;
    var entrypoint := if |c.entrypoint| > 0 then Some(Join(c.entrypoint, " ")) else None;
    var devices := if |c.devices| > 0 then Some(DeviceStrings(c.devices)) else None;
    service := ServiceRecord(image, command, environment, ports, volumes, networks, restart, c.privileged,
      TextField(c.user), TextField(c.pidMode), TextField(c.utsMode), TextField(c.workingDir), entrypoint,
      ListField(c.capAdd), ListField(c.capDrop), devices, ListField(c.labels));
  }

  /** A tagged image is always named by its first tag. */
  lemma TagsPreferred(c: Container, images: map<string, ImageResult>)
    requires c.imageRef != "" && c.imageRef in images && images[c.imageRef].Tags? && |images[c.imageRef].tags| > 0
    ensures ResolveImage(c, images) == Some(images[c.imageRef].tags[0])
  {
  }

  /** An image id the runtime does not know falls back to `Config.Image`, whatever it holds. */
  lemma ImageNotFoundFallback(c: Container, images: map<string, ImageResult>)
    requires c.imageRef != "" && c.imageRef !in images
    ensures ResolveImage(c, images) == c.configImage
  {
  }

  /** Any other failed lookup keeps `Config.Image` when it is there, and the placeholder otherwise. */
  lemma ImageLookupError(c: Container, images: map<string, ImageResult>)
    requires c.imageRef != "" && c.imageRef in images && images[c.imageRef].ApiError?
    ensures c.configImage.Some? ==> ResolveImage(c, images) == c.configImage
    ensures c.configImage.None? ==> ResolveImage(c, images) == Some(UnknownImage)
  {
  }

  /** A found image without tags is named by a truthy `Config.Image`, and by its own id otherwise. */
  lemma UntaggedImage(c: Container, images: map<string, ImageResult>)
    requires c.imageRef != "" && c.imageRef in images && images[c.imageRef] == Tags([])
    ensures Truthy(c.configImage) ==> ResolveImage(c, images) == c.configImage
    ensures !Truthy(c.configImage) ==> ResolveImage(c, images) == Some(c.imageRef)
  {
  }

  /** Without an image id only a truthy `Config.Image` names the image; otherwise there is none. */
  lemma NoImageId(c: Container, images: map<string, ImageResult>)
    requires c.imageRef == ""
    ensures Truthy(c.configImage) ==> ResolveImage(c, images) == c.configImage
    ensures !Truthy(c.configImage) ==> ResolveImage(c, images) == None
  {
  }

  /**
   * The image name always comes from the runtime: the first tag, `Config.Image`,
   * the image id, or the placeholder for a failed lookup without `Config.Image`.
   */
  lemma ImageProvenance(c: Container, images: map<string, ImageResult>)
    requires ResolveImage(c, images).Some?
    ensures var v := ResolveImage(c, images).value;
      || (c.imageRef in images && images[c.imageRef].Tags? && |images[c.imageRef].tags| > 0 && v == images[c.imageRef].tags[0])
      || (c.configImage.Some? && v == c.configImage.value)
      || (v == c.imageRef && v != "" && !Truthy(c.configImage))
      || (v == UnknownImage && c.configImage.None? && c.imageRef in images && images[c.imageRef].ApiError?)
  {
  }

  /**
   * A truthy `Config.Image` always yields an image, unless the image's first
   * tag itself is empty; without an image id and without `Config.Image` there is none.
   */
  lemma ImageAvailability(c: Container, images: map<string, ImageResult>)
    ensures Truthy(c.configImage) && !(c.imageRef != "" && c.imageRef in images && images[c.imageRef].Tags?
        && |images[c.imageRef].tags| > 0 && images[c.imageRef].tags[0] == "")
      ==> Truthy(ResolveImage(c, images))
    ensures c.imageRef == "" && !Truthy(c.configImage) ==> ResolveImage(c, images).None?
  {
  }

  /** A present text, list or mapping field is never empty, except a command whose arguments are all empty. */
  predicate OmitsEmpty(s: ServiceRecord) {
    && (s.environment.Some? ==> |s.environment.value| > 0)
    && (s.ports.Some? ==> |s.ports.value| > 0)
    && (s.volumes.Some? ==> |s.volumes.value| > 0)
    && (s.networks.Some? ==> |s.networks.value| > 0)
    && (s.restart.Some? ==> s.restart.value != "")
    && (s.user.Some? ==> s.user.value != "")
    && (s.pid.Some? ==> s.pid.value != "")
    && (s.uts.Some? ==> s.uts.value != "")
    && (s.workingDir.Some? ==> s.workingDir.value != "")
    && (s.capAdd.Some? ==> |s.capAdd.value| > 0)
    && (s.capDrop.Some? ==> |s.capDrop.value| > 0)
    && (s.devices.Some? ==> |s.devices.value| > 0)
    && (s.labels.Some? ==> |s.labels.value| > 0)
  }

  /**
   * A service never carries an empty field, and ports appear exactly when the
   * runtime reports a port, with at least one string per port. A command and an
   * entrypoint appear exactly when the runtime reports arguments for them.
   */
  lemma ServiceOmitsEmpty(c: Container, host: Host, includeAllEnv: bool, includeDefaultVolumes: bool)
    ensures OmitsEmpty(ServiceOf(c, host, includeAllEnv, includeDefaultVolumes))
    ensures var s := ServiceOf(c, host, includeAllEnv, includeDefaultVolumes);
      && (s.ports.Some? <==> |c.ports| > 0)
      && (s.ports.Some? ==> |s.ports.value| >= |c.ports|)
      && (s.command.Some? <==> |c.cmd| > 0)
      && (s.entrypoint.Some? <==> |c.entrypoint| > 0)
  {
    Ports.PortStringsCount(c.ports);
  }

  /** The exception: a command of empty arguments is written, as an empty string. */
  lemma EmptyCommandWritten()
    ensures JoinedArgs([""]) == Some("")
    ensures JoinedArgs(["", ""]) == Some(" ")
  {
    var two: seq<string> := ["", ""];
    assert two[1..] == [""];
    assert "" + " " + "" == " ";
  }

  /** A command whose arguments hold no space is recovered by splitting at spaces. */
  lemma CommandRoundTrip(args: seq<string>)
    requires |args| > 0
    requires forall i :: 0 <= i < |args| ==> ' ' !in args[i]
    ensures JoinedArgs(args).Some? && Split(JoinedArgs(args).value, ' ') == args
  {
    SplitJoin(args, ' ');
  }

  /** Joining with spaces loses argument boundaries: these two commands become one. */
  lemma CommandBoundariesLost()
    ensures JoinedArgs(["sh", "-c", "echo hi"]) == JoinedArgs(["sh", "-c", "echo", "hi"]) == Some("sh -c echo hi")
  {
    var a, b := ["sh", "-c", "echo hi"], ["sh", "-c", "echo", "hi"];
    assert a[1..][1..] == ["echo hi"] && b[1..][1..][1..] == ["hi"];
    assert Join(b[1..][1..], " ") == "echo" + " " + "hi" == "echo hi";
    assert Join(a[1..], " ") == Join(b[1..], " ") == "-c" + " " + "echo hi";
    assert Join(a, " ") == Join(b, " ") == "sh" + " " + "-c echo hi" == "sh -c echo hi";
  }
}
