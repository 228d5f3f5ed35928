# docker-autocompose-gui, modelled in Dafny

This project models the Compose synthesis engine of docker-autocompose-gui, together with the small helpers of its two front ends.

The engine is `generate_compose` in autocompose.py. It takes an ordered list of container names or ids and turns each container's snapshot into one service record of a Compose document. Along the way it fills two document-wide registries, the top-level `networks` and `volumes`.

The Docker client is replaced by a plain value, `Docker.Host`, which holds four things:
- the containers, where an absent name stands for NotFound or APIError;
- the image lookups, where an absent id stands for ImageNotFound and `ApiError` for any other failure;
- the networks, where an absent name stands for NotFound;
- the set of host paths for which `os.path.exists` holds.

Python dictionaries keep insertion order, so the document's mappings are association lists (`AssocLists.Assoc`). With them, key order and last-wins overwrite are both visible.

The modules follow the engine's structure:
- `Compose`: the outer loop (`GenerateCompose`) and the document.
- `Services`: one container's record, field by field (`BuildService`).
- `Environment`, `Ports`, `Volumes` and `Networks`: the four inner loops. Each is a method with a loop, proved equal to a prefix-recursive specification function. The properties are then proved about that function.
- `AssocLists`, `Text` and `Seqs`: Python's dict assignment, the string operations the code uses (`join`, `split`, `split(sep, 1)`, `strip`, `lstrip`, `in`), and list mapping and flattening.
- `Filenames`: the file-name sanitiser. It is the same rule in app.py and gui_app.py.
- `WebApp`: the Flask app's helpers. It contains a `Session` class whose methods update the selection, the job history and the column count in place.
- `GuiApp`: the Streamlit app's `run_autocompose` up to the point where the engine is started. This covers the early returns, the argument list, and the shell-quoted command line it displays. That line is tied back to the argument list by a POSIX shell word splitter and unquoter, `ReadWords`: `DisplayRoundTrip` proves that the line splits back into exactly the arguments.

## Where the code and the design description disagree

The model follows the code in each of these places:
- **Networks with the `bridge` driver.** A user-defined network whose driver is `bridge` is listed on the service, but it is never declared at the top level (autocompose.py:210). The design says it is registered with no attributes. `Networks.UserBridgeNetworkUndeclared` shows the gap, and `Compose.DocumentWellFormed` states the invariant the code actually keeps: every listed network is declared, or has the `bridge` driver.
- **Image with no tags.** When the image is found but has no tags and `Config.Image` is falsy, the code uses the raw image id (autocompose.py:65-67). The design mentions only `Config.Image`.
- **Restart policy.** An empty restart-policy name is omitted, just as `no` is (autocompose.py:220-223).
- **Bare keys under "include all".** A bare key gets the value `None` (YAML null) (autocompose.py:104, 122).
- **Service names.** `lstrip('/')` removes every leading slash.
- **Host addresses.** Only `0.0.0.0` counts as the any-address.
- **Other mount types.** Mount types other than `volume` and `bind` are dropped.

## Model

| member | source | states |
|---|---|---|
| Compose.GenerateCompose | autocompose.py:23-260 | The loop over the ids builds exactly `ComposeOf`. Services are filled in id order with last-wins assignment. The top-level `networks` and `volumes` appear only when those registries are non-empty. The version is 3.8. |
| Compose.UnknownIdIgnored | autocompose.py:33-43 | An id the runtime does not know (NotFound or APIError) changes nothing in the document. The ids around it are processed as if it were not there. |
| Compose.RunServices | autocompose.py:33-248 | The services mapping after the loop is the in-order dict fill of the ids. A container is kept when it was found and has a truthy image, and is stored under its service name. |
| Compose.ServicePresence | autocompose.py:246-248 | A service name is in the document exactly when it was there before, or when some found container with a truthy image has that name. |
| Compose.ServiceLastWins | autocompose.py:246-248 | The service stored under a name is the one built for the last container that stores one under that name. |
| Compose.ServicesHaveImages | autocompose.py:246-248 | Every stored service has a truthy image. |
| Compose.ServicesDistinct | autocompose.py:248 | Service names in the document are distinct. |
| Compose.StepNetworksDeclared | autocompose.py:206-215 | One container keeps this invariant: every network a stored service lists is declared at the top level, or has the `bridge` driver. |
| Compose.RunNetworksDeclared | autocompose.py:33-216 | The whole loop keeps the same network invariant. |
| Compose.DocumentWellFormed | autocompose.py:246-257 | The document satisfies all of the following: version 3.8, distinct service names, every service with an image, top-level sections never present and empty, and every listed network declared unless its driver is `bridge`. |
| Compose.SingleContainer | autocompose.py:246-248 | A single found container with an image gives a document with exactly one service, under its derived name. |
| Services.ServiceName | autocompose.py:45-47 | The name is `Name` after all leading `/` are removed: a suffix that starts with something other than `/`. When `Name` is only slashes, it is the short id. |
| Services.BuildService | autocompose.py:50-243 | The record is `ServiceOf` the container. The volume and network registries advance exactly as `RegisterVolumes` and `RegisterNetworks` over its mounts and networks. |
| Services.TagsPreferred | autocompose.py:57-60 | An image found with tags is named by its first tag. |
| Services.ImageNotFoundFallback | autocompose.py:74-76 | When the image id is set but the runtime has no such image (ImageNotFound), the image is exactly `Config.Image`, whatever it holds. A falsy `Config.Image` therefore leaves no image and the service is dropped. |
| Services.ImageLookupError | autocompose.py:77-79 | Any other failed lookup gives `Config.Image` when the key is present, and `unknown_image_due_to_error` when it is absent. |
| Services.UntaggedImage | autocompose.py:57-67 | A found image without tags is named by `Config.Image` when that is truthy, and by the raw image id otherwise. |
| Services.NoImageId | autocompose.py:57-72 | Without an image id, a truthy `Config.Image` names the image; otherwise there is no image. |
| Services.ImageProvenance | autocompose.py:53-79 | A resolved image is one of the following: the first tag, `Config.Image`, the raw image id (only when `Config.Image` is falsy), or `unknown_image_due_to_error` (only when a lookup failed otherwise and `Config.Image` is absent). |
| Services.ImageAvailability | autocompose.py:53-79 | A truthy `Config.Image` always yields a truthy image, unless the first tag itself is empty. With no image id and no `Config.Image` there is no image, so the service is dropped. |
| Services.ServiceOmitsEmpty | autocompose.py:82-243 | No present environment, ports, volumes, networks, restart, user, pid, uts, working_dir, cap_add, cap_drop, devices or labels field is empty. `ports` is present exactly when the runtime reports a port, with at least one string per port. `command` and `entrypoint` are present exactly when the runtime reports arguments for them. |
| Services.EmptyCommandWritten | autocompose.py:83-84 | A command made only of empty arguments is still written: `[""]` gives the empty string and `["", ""]` a single space. |
| Services.RestartField | autocompose.py:220-223 | `restart` is written exactly when the policy name is non-empty and not `no`, and then it is the name itself. |
| Services.TextField | autocompose.py:226-230 | `user`, `pid`, `uts` and `working_dir` are written exactly when non-empty, and then verbatim. |
| Services.ListField | autocompose.py:233-243 | `cap_add`, `cap_drop`, `devices` and `labels` are written exactly when non-empty, and then verbatim. |
| Services.DeviceStrings | autocompose.py:237-238 | There is one `PathOnHost:PathInContainer:CgroupPermissions` string per device, in order. |
| Services.CommandRoundTrip | autocompose.py:83-84 | A command whose arguments contain no space is recovered by splitting the joined string at spaces. |
| Services.CommandBoundariesLost | autocompose.py:83-84 | Joining with spaces loses argument boundaries: two different argument lists give the same command. |
| Environment.BuildEnvironment | autocompose.py:100-130 | The loop builds the insertion-ordered mapping `EnvFrom` of the entries. The field is omitted (None) when that mapping is empty, and is never present and empty. |
| Environment.ExcludedKeysSpec | autocompose.py:89-94 | A key is excluded exactly when all of these hold: the AUTOCOMPOSE_EXCLUDE label is present, the key is non-empty, and the key is one of the label's comma-separated pieces after stripping white space. |
| Environment.StrippedKeysIn | autocompose.py:94 | The comprehension keeps exactly the non-empty stripped pieces. |
| Environment.EnvKeyPresence | autocompose.py:103-124 | A key is in the mapping exactly when some entry with that key (the text before its first `=`) is admitted. Admitted means: the key is non-empty, it is not excluded, and either "include all" is set or the entry is written with `=`. |
| Environment.EnvLastWins | autocompose.py:121-124 | The value under a key is that of the last admitted entry with the key: the text after its first `=`, or None for a bare key. |
| Environment.ExclusionWins | autocompose.py:117-119 | An excluded key never appears, even under "include all". |
| Environment.BareKeysNeedIncludeAll | autocompose.py:121-124 | Without "include all", every key present was written as `KEY=VALUE`. |
| Environment.EnvDistinct | autocompose.py:101-124 | The mapping never holds a key twice. |
| Text.SplitFirst | autocompose.py:105-109 | `split("=", 1)`: the key contains no `=`. The value is absent exactly when the entry has no `=`. Key, `=` and value re-concatenate to the entry. |
| Text.SplitFirstAt | autocompose.py:107 | Splitting `a` + `=` + `b`, where `a` has no `=`, gives `a` and `b` back. |
| Text.Split | autocompose.py:94 | `split(",")` gives at least one piece, and no piece contains the separator. |
| Text.JoinSplit | autocompose.py:94 | Joining the pieces of a split with the separator gives the text back. |
| Text.SplitJoin | autocompose.py:94 | Splitting a join of separator-free pieces gives the pieces back. |
| Text.StripSpec | autocompose.py:94 | `strip()` returns the part of the text between leading and trailing white space. That part neither starts nor ends with white space. |
| Text.StripLeading | autocompose.py:45 | `lstrip('/')` removes exactly the leading run of `/`. |
| Ports.BuildPorts | autocompose.py:134-142 | The loop builds `PortsField`: None when no port is reported, otherwise the concatenation, in the runtime's order, of each port's strings. |
| Ports.AppendBindings | autocompose.py:138-140 | The inner loop appends one binding string per host binding, in order. |
| Ports.BindingStrings | autocompose.py:139-140 | Each binding string is `HOSTIP:HOSTPORT:PORT`, with `HOSTIP:` left out when the address is empty or 0.0.0.0. |
| Ports.PortStringsAppend | autocompose.py:136 | The strings of consecutive runs of ports concatenate, so the runtime's order is kept. |
| Ports.PortStringsCount | autocompose.py:136-142 | Every port key contributes at least one string, and exactly one when it has at most one binding. |
| Ports.PortStringsMembership | autocompose.py:136-142 | A string is in the list exactly when some port key produces it: as one of its binding strings, or as its bare port when it has no bindings. |
| Ports.BindingStringRoundTrip | autocompose.py:139-140 | A binding string is unambiguous. The address, even an IPv6 one, and both ports are recovered from it, with 0.0.0.0 read back as no address. |
| Volumes.AddMount | autocompose.py:151-171 | For one mount, both of these hold. First, the volume string `SOURCE:TARGET[:ro]` is appended exactly when the mount has a source and a target and is either a bind mount or a volume that passes the anonymous-volume filter. Second, the registry gains `{external: anonymous}` exactly when the volume is kept, its name is new and its source path does not exist. |
| Volumes.BuildVolumes | autocompose.py:148-173 | The loop builds `VolumesField`, which is omitted when empty, and advances the registry as `RegisterVolumes`. |
| Volumes.ServiceVolumesMembership | autocompose.py:154-171 | A string is listed exactly when a kept mount produces it. |
| Volumes.ServiceVolumesCount | autocompose.py:150-173 | The list has exactly `KeptCount` strings, one per kept mount, so at most one per mount. When every mount is kept there is one string per mount, and with no kept mount the list is empty. |
| Volumes.RegistryKept | autocompose.py:166-167 | A registry entry, once made, is never overwritten. |
| Volumes.RegistryProvenance | autocompose.py:162-167 | Every new entry comes from a kept managed volume of that name whose source path does not exist. Its `external` is true exactly when the name is anonymous. |
| Volumes.RegistryCoverage | autocompose.py:162-167 | Every kept managed volume whose source path does not exist ends up registered. |
| Volumes.AnonymousVolume | autocompose.py:162-169 | Without "include default volumes", an anonymous volume is neither listed nor registered. With it, the volume is listed, and it is registered as external when its path is absent and its name is new. |
| Networks.AddNetwork | autocompose.py:194-213 | One attachment works as follows. The unmodified default `bridge` is skipped. Any other name is listed. A new name is declared with its driver, or as `{}` when the driver is empty or the lookup fails. A name whose driver is `bridge` is not declared. |
| Networks.BuildNetworks | autocompose.py:178-216 | The block builds `NetworksField`, which is omitted when empty, and advances the registry as `RegisterNetworks`. |
| Networks.DefaultBridgeAlone | autocompose.py:181-193 | Attached only to the unmodified default network, a service lists no network and declares nothing, so the early test agrees with the per-network test. |
| Networks.AttachedMembership | autocompose.py:194-206 | A network is listed exactly when the container is attached to it and it is not the unmodified default `bridge`. |
| Networks.AttachedDistinct | autocompose.py:206 | The listed networks are distinct. |
| Networks.RegistryKept | autocompose.py:207 | A registry entry, once made, is never overwritten. |
| Networks.RegistryProvenance | autocompose.py:207-213 | Every new entry comes from an attached, listed network and holds what its lookup declares. |
| Networks.ListedAreDeclared | autocompose.py:206-213 | Every listed network is declared at the top level, unless the runtime reports its driver as `bridge`. |
| Networks.UserBridgeNetworkUndeclared | autocompose.py:210 | A user network `appnet` with the `bridge` driver is listed on the service but not declared. |
| Networks.OverlayNetworkDeclared | autocompose.py:209-211 | A user network `appnet` with the `overlay` driver is listed and declared with that driver. |
| AssocLists.Put | autocompose.py:248 | `d[k] = v`: `k` then maps to `v`, and every other key keeps its value. |
| AssocLists.PutKeys | autocompose.py:248 | Assigning to a present key keeps the key order. A new key goes last. |
| AssocLists.PutDistinct | autocompose.py:248 | Assignment never creates a duplicate key. |
| AssocLists.PutAllPresence | autocompose.py:246-248 | After filling a dict in a loop, a key is present exactly when it was present before or some kept item has it. |
| AssocLists.PutAllLastWins | autocompose.py:246-248 | After filling a dict in a loop, a key holds the value of the last kept item with that key. |
| Filenames.Sanitize | app.py:100-104 | The result contains only characters from `-_.A-Za-z0-9` and is never empty. |
| Filenames.SanitizeCounts | app.py:101-103 | Unless the fallback is used, each valid character occurs as often as in the input, with one extra underscore per space. Every other character is gone. |
| Filenames.FallbackWhenNothingKept | app.py:104 | `unnamed_compose` is returned exactly when the input has no valid character and no space. |
| Filenames.KeepValidCounts | gui_app.py:65-66 | The filter keeps every valid character as often as it occurs and drops the rest. |
| Filenames.KeepValidAppend | gui_app.py:66 | The filter keeps order: filtering a concatenation filters each part in turn. |
| Filenames.ReplaceSpacesCounts | gui_app.py:64 | Only spaces change, each one into an underscore. |
| Filenames.ValidUnchanged | gui_app.py:63-69 | A string of valid characters is left as it is. |
| Filenames.SanitizeIdempotent | gui_app.py:63-69 | Sanitising twice is the same as sanitising once. |
| WebApp.FormatPortsInfo | app.py:179-190 | The loops build `PortsSummary`. A non-mapping or empty input gives "No port data". Otherwise the result is the items joined by ", ", or "No exposed ports" when there are no items. |
| WebApp.AppendHostPorts | app.py:184-187 | The inner loop appends `HOSTPORT:PORT` for each dict item with a truthy HostPort, in order. |
| WebApp.HostPortItemsMembership | app.py:184-187 | An item is listed exactly when one host config of its port has that truthy host port. |
| WebApp.BindingsMembership | app.py:182-189 | An item is listed exactly when some port key contributes it. A None value contributes `exposed PORT`, an empty list contributes nothing. |
| WebApp.NoExposedPortsMeaning | app.py:190 | For a non-empty mapping, the summary is "No exposed ports" exactly when no port key contributes an item. |
| WebApp.ImageName | app.py:165-177 | A non-dict attrs gives "Invalid Attrs". A non-dict Config gives "Invalid Config". The well-formed cases are stated by the four lemmas that follow. |
| WebApp.ImageNameNoClient | app.py:170-176 | Without a client the name is `Config.Image`, or "Unknown Image" when that key is absent, whatever `ImageID` holds. |
| WebApp.ImageNameFirstTag | app.py:171-174 | With a client, a non-empty `ImageID` whose image has tags gives that image's first tag, whatever `Config.Image` holds. |
| WebApp.ImageNameFailedLookup | app.py:171-176 | An empty or unknown `ImageID`, a lookup that raises, or an image without tags gives the same name as having no client. |
| WebApp.ImageNameSource | app.py:170-176 | A well-formed snapshot's name is `Config.Image`, "Unknown Image", or one of the tags the runtime reports for `ImageID`. |
| WebApp.ToggleFlips | app.py:196-201 | Toggling flips the id's membership only: other entries are unchanged, a new id maps to its display name, and the count moves by one. |
| WebApp.ToggleTwice | app.py:192-203 | Toggling twice with the same card restores the selection. |
| WebApp.IdNameMapSpec | app.py:206 | Select-all selects exactly the listed ids, each with the name of its last card. |
| WebApp.CapHistorySpec | app.py:409-411 | The history never exceeds 50 entries. It is a prefix of new entries followed by the old history, so the new entries come first in order and only the oldest entries are dropped. |
| WebApp.ClampColumnsSpec | app.py:288 | The column count lands in [1, 5] and values already there are kept. The clamp is monotone and idempotent. |
| WebApp.RejectsTraversal | app.py:446 | A path with a `..` component, or an absolute subdirectory or file name, is rejected. |
| WebApp.AcceptedIsContained | app.py:446 | An accepted path is relative and has no `..` component. |
| WebApp.Session.constructor | app.py:213-219 | A fresh session has no selection, no history and 3 columns. |
| WebApp.Session.ToggleSelection | app.py:192-203 | The selection becomes `Toggle` of the old one. The result reports whether the id is now selected (true exactly when it was not before) and the new map size. Nothing else changes. |
| WebApp.Session.SelectAll | app.py:205-207 | The selection becomes exactly the id-to-name map of the cards. Nothing else changes. |
| WebApp.Session.DeselectAll | app.py:209-211 | The selection becomes empty. Nothing else changes. |
| WebApp.Session.ClearHistory | app.py:277-278 | The job history becomes empty. Nothing else changes. |
| WebApp.Session.RecordJobs | app.py:409-412 | When the request produced entries, they are prepended and the list is cut to 50. The cap of 50 is kept. Nothing else changes. |
| WebApp.Session.SetColumns | app.py:287-289 | A parsed value is clamped into [1, 5]. A value `int()` rejects leaves the count as it was. |
| GuiApp.BuildCommand | gui_app.py:37-40 | The `append`/`extend` steps build exactly `python /app/autocompose.py [--full] ids...`. |
| GuiApp.CommandLineShape | gui_app.py:37-40 | The command has 2 + (1 if `--full`) + the number of ids words. `--full` comes right after the script and before every id, appearing in the prefix exactly when requested. The ids follow untouched, in order. |
| GuiApp.PrepareRun | gui_app.py:26-42 | A missing script returns `(None, "`autocompose.py` not found at /app/autocompose.py", -2, "")`. An empty id list returns `("", "No container IDs provided.", -1, "")` without building a command. Otherwise the command and its displayed line are executed. |
| GuiApp.QuoteAll | gui_app.py:42 | Each argument is quoted as `shlex.quote` does, in order. |
| GuiApp.ShellQuoteRoundTrip | gui_app.py:42 | A POSIX shell reads every quoted argument back as the argument itself, whatever text follows it on the line. |
| GuiApp.QuotedThenBlank | gui_app.py:42 | A quoted argument followed by a blank is read as exactly that word, and reading goes on after the blank. |
| GuiApp.DisplayRoundTrip | gui_app.py:42 | The displayed line, split at unquoted blanks and unquoted, gives back exactly the argument list, for any arguments (empty ones, spaces and quotes included). |
| GuiApp.DisplayPlain | gui_app.py:42 | When every id is a plain word, the displayed line is the arguments joined by spaces. |
| GuiApp.QuoteExample | gui_app.py:42 | A word with a space is shown in single quotes: `a b` becomes `'a b'`. |

## Left out

- YAML serialisation (`pyaml.dump`, `MyDumper`, autocompose.py:292-296) is a library this model cannot see. The mappings are insertion-ordered association lists; the dumper is assumed to write keys in that order.
- `main`, argparse, the client connection and `ping` (autocompose.py:262-290) are left out. The runtime is the `Docker.Host` value, and `os.path.exists` is its `paths` set.
- The `sys.stderr` diagnostics throughout `generate_compose` are output only and are not modelled.
- `generate_compose`: some cases of the runtime snapshot are merged with their empty counterparts:
  - a null and an empty `Config.Cmd`, `Env`, `Ports`, `Mounts`, `Networks`, `Labels` or `RestartPolicy` read the same;
  - an absent `HostIp`, `Source`, `Target` or `Name` reads as "";
  - an `Image` that is present but null is read as absent.
- `generate_compose`: KeyErrors on missing sections that are outside error handling (e.g. `attrs['Config']['Cmd']`, a device without `PathOnHost`, a volume mount without `Name`) are not modelled. The model reads them as their empty values.
- `generate_compose`: an APIError from `client.networks.get` propagates out of `generate_compose` in the code. The model has only "found" and "not found" networks.
- `generate_compose` performs repeated `client.networks.get('bridge')` queries, which could race with changes on the host. The model reads one snapshot, so every query sees the same network.
- `generate_compose`: the service's `networks` value `{}` per network is modelled as the list of keys, because every value is the same empty mapping.
- Flask routing, templates, `flash`, redirects, `send_file`, sorting and date formatting (app.py:221-461) are left out. The path guard of app.py:446 is modelled, but the directory resolution after it is not.
- `get_container_image_name`: the outer `except` returning "Error: Image Name" (app.py:177) is not modelled. It can only be reached through attribute errors the typed snapshot cannot express.
- `Session.SetColumns` takes the result of `int()` as a parameter. The parsing itself is left out.
- The ZIP download's history update `[:49]` at app.py:405, ZIP creation itself, the GitHub upload (app.py:109-146) and the file writes and `rmtree` calls are I/O, and are left out.
- `Session.SelectAll`, `Session.ToggleSelection` and `IdNameMap`: Python dicts keep their keys in first-insertion order, both in the `{c['id']: c['name'] ...}` comprehension (app.py:206) and in `selected[id] = name` (app.py:199). The selection is modelled as a Dafny `map`, which has no order, so the order in which selected ids are listed is not modelled.
- `ImageName`: `Config.Image` is an `Option`, where None means the key is absent. When the key is present with the value None, `config.get('Image', 'Unknown Image')` (app.py:170) returns None instead of the fallback text. That case is not modelled: the model reads it as absent and gives "Unknown Image".
- `ServiceOmitsEmpty`: a `Config.Cmd` or `Entrypoint` list is truthy when it is non-empty, so a list of empty arguments such as `[""]` is written as the empty string (autocompose.py:83-84, 231-232). The lemma therefore does not promise that a present command or entrypoint is non-empty. `EmptyCommandWritten` shows the case.
- `run_autocompose`: the existence test of the script is the parameter `scriptExists`. The `log_area` messages are not modelled. The subprocess, its 90 s timeout and its error returns (gui_app.py:45-60) are I/O and are left out; `PrepareRun` stops at the returned `Execute` value.
- The Streamlit widgets and session state (gui_app.py:13-244, apart from the parts above) and static/script.js are user interface and asynchronous I/O, and are left out.
