/**
 * What the engine reads from the container runtime, as plain values.
 *
 * Each container snapshot keeps the parts of `container.attrs` the engine
 * looks at. Where the source only tests a value for truthiness, Python's
 * `None` and the empty value are one case here: an empty string for text,
 * an empty sequence for lists and mappings.
 */
module Docker {
  import opened Wrappers
  import opened AssocLists

  /** One entry of a port's host-binding list; `hostIp` is "" when none is reported. */
  datatype PortBinding = PortBinding(hostIp: string, hostPort: string)

  /**
   * One key of `NetworkSettings.Ports`: the container-side port such as
   * "80/tcp" and its host bindings (a null list and an empty one alike).
   */
  datatype PortEntry = PortEntry(port: string, bindings: seq<PortBinding>)

  /**
   * One element of `Mounts`. `kind` is its `Type`; `rw` is `RW`, which the
   * source reads as true when absent; `source`/`target` are "" when absent.
   */
  datatype Mount = Mount(kind: string, name: string, source: string, target: string, rw: bool)

  /** One element of `HostConfig.Devices`. */
  datatype Device = Device(pathOnHost: string, pathInContainer: string, cgroupPermissions: string)

  /** A container snapshot: `container.attrs` and `container.short_id`. */
  datatype Container = Container(
    name: string,                   // attrs['Name'], e.g. "/web"
    shortId: string,                // container.short_id
    imageRef: string,               // attrs['Image'], the image id ("" when absent)
    configImage: Option<string>,    // Config.Image (None when the key is absent)
    cmd: seq<string>,               // Config.Cmd
    entrypoint: seq<string>,        // Config.Entrypoint
    env: seq<string>,               // Config.Env, raw "KEY=VALUE" or "KEY" entries
    labels: Assoc<string, string>,  // Config.Labels
    user: string,                   // Config.User
    workingDir: string,             // Config.WorkingDir
    ports: seq<PortEntry>,          // NetworkSettings.Ports, in the runtime's order
    networks: seq<string>,          // the keys of NetworkSettings.Networks, in order
    mounts: seq<Mount>,             // Mounts
    restartPolicy: string,          // HostConfig.RestartPolicy.Name ("" when no policy)
    privileged: bool,               // HostConfig.Privileged
    pidMode: string,                // HostConfig.PidMode
    utsMode: string,                // HostConfig.UTSMode
    capAdd: seq<string>,            // HostConfig.CapAdd
    capDrop: seq<string>,           // HostConfig.CapDrop
    devices: seq<Device>)           // HostConfig.Devices

  /** What `client.images.get(id)` gives when it does not raise ImageNotFound. */
  datatype ImageResult = Tags(tags: seq<string>) | ApiError

  /** The attributes of a network that `client.networks.get(name)` returns. */
  datatype Network = Network(driver: string, hasOptions: bool, internal: bool, scope: string)

  /**
   * The Docker host as the engine sees it. A name missing from `containers`
   * raises NotFound or APIError (the engine treats both alike), an id missing
   * from `images` raises ImageNotFound, a name missing from `networks` raises
   * NotFound; `paths` holds the host paths for which `os.path.exists` is true.
   */
  datatype Host = Host(
    containers: map<string, Container>,
    images: map<string, ImageResult>,
    networks: map<string, Network>,
    paths: set<string>)
}
