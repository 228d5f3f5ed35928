/**
 * The `ports` field of a service (autocompose.py:133-144): one
 * "HOSTIP:HOSTPORT:PORT" string per host binding, with "HOSTIP:" left out when
 * the address is empty or 0.0.0.0, and the bare port for a port without
 * bindings, in the order the runtime reports them.
 */
module Ports {
  import opened Wrappers
  import opened Text
  import opened Docker
  import Seqs

  /** `f"{HostIp}:"` unless the address is empty or the any-address 0.0.0.0. */
  function HostIpPrefix(b: PortBinding): string {
    if b.hostIp != "" && b.hostIp != "0.0.0.0" then b.hostIp + ":" else ""
  }

  /** `f"{host_ip_str}{HostPort}:{port}"`. */
  function BindingString(b: PortBinding, port: string): string {
    HostIpPrefix(b) + b.hostPort + ":" + port
  }

  /** The strings of one port's bindings, in order. */
  function BindingStrings(bs: seq<PortBinding>, port: string): (r: seq<string>)
    ensures |r| == |bs|
    ensures forall i :: 0 <= i < |bs| ==> r[i] == BindingString(bs[i], port)
  {
    if |bs| == 0 then []
    else
      var pre := bs[..|bs| - 1];
      assert forall i :: 0 <= i < |pre| ==> pre[i] == bs[i];
      BindingStrings(pre, port) + [BindingString(bs[|bs| - 1], port)]
  }

  /** The strings one port key contributes: its bindings, or the bare port. */
  function EntryStrings(e: PortEntry): seq<string> {
    if |e.bindings| == 0 then [e.port] else BindingStrings(e.bindings, e.port)
  }

  /** The strings of each port key, in the runtime's order. */
  function EntryLists(entries: seq<PortEntry>): (r: seq<seq<string>>)
    ensures |r| == |entries|
    ensures forall i :: 0 <= i < |entries| ==> r[i] == EntryStrings(entries[i])
  {
    Seqs.Map(EntryStrings, entries)
  }

  /** The strings of all port keys, one key after the other. */
  function PortStrings(entries: seq<PortEntry>): seq<string> {
    Seqs.Flatten(EntryLists(entries))
  }

  /** The field: present exactly when the runtime reports at least one port key. */
  function PortsField(entries: seq<PortEntry>): Option<seq<string>> {
    if |entries| == 0 then None else Some(PortStrings(entries))
  }

  /** The inner loop of autocompose.py:138-140: one string per host binding. */
  method AppendBindings(acc: seq<string>, bindings: seq<PortBinding>, port: string) returns (out: seq<string>)
    ensures out == acc + BindingStrings(bindings, port)
  {
    out := acc;
    var j := 0;
    while j < |bindings|
      invariant 0 <= j <= |bindings|
      invariant out == acc + BindingStrings(bindings[..j], port)
    {
      var b := bindings[j];
      var hostIp := HostIpPrefix(b);
      assert bindings[..j + 1][..j] == bindings[..j];
      assert BindingStrings(bindings[..j + 1], port) == BindingStrings(bindings[..j], port) + [BindingString(b, port)];
      out := out + [hostIp + b.hostPort + ":" + port];
      j := j + 1;
    }
    assert bindings[..|bindings|] == bindings;
  }

  /** The loop of autocompose.py:134-142, appending to the list in place. */
  method BuildPorts(entries: seq<PortEntry>) returns (ports: Option<seq<string>>)
    ensures ports == PortsField(entries)
  {
    ports := None;
    if |entries| > 0 {
      var acc: seq<string> := [];
      var i := 0;
      while i < |entries|
        invariant 0 <= i <= |entries|
        invariant acc == PortStrings(entries[..i])
      {
        var e := entries[i];
        PortStringsStep(entries[..i + 1]);
        assert entries[..i + 1][..i] == entries[..i];
        if |e.bindings| > 0 {
          acc := AppendBindings(acc, e.bindings, e.port);
        } else {
          acc := acc + [e.port];
        }
        i := i + 1;
      }
      assert entries[..|entries|] == entries;
      ports := Some(acc);
    }
  }

  /** One more port key appends its strings. */
  lemma PortStringsStep(entries: seq<PortEntry>)
    requires |entries| > 0
    ensures PortStrings(entries) == PortStrings(entries[..|entries| - 1]) + EntryStrings(entries[|entries| - 1])
  {
    var n := |entries| - 1;
    assert entries == entries[..n] + [entries[n]];
    Seqs.MapAppend(EntryStrings, entries[..n], [entries[n]]);
    Seqs.FlattenSnoc(EntryLists(entries[..n]), EntryStrings(entries[n]));
  }

  /** Port lists of consecutive runs of entries concatenate: the runtime's order is kept. */
  lemma PortStringsAppend(a: seq<PortEntry>, b: seq<PortEntry>)
    ensures PortStrings(a + b) == PortStrings(a) + PortStrings(b)
  {
    Seqs.MapAppend(EntryStrings, a, b);
    Seqs.FlattenAppend(EntryLists(a), EntryLists(b));
  }

  /** Every port key contributes at least one string, one per binding when it has any. */
  lemma PortStringsCount(entries: seq<PortEntry>)
    ensures |PortStrings(entries)| >= |entries|
    ensures (forall i :: 0 <= i < |entries| ==> |entries[i].bindings| <= 1) ==> |PortStrings(entries)| == |entries|
  {
    var xs := EntryLists(entries);
    forall i | 0 <= i < |xs| ensures |xs[i]| >= 1 {
      assert xs[i] == EntryStrings(entries[i]);
    }
    if forall i :: 0 <= i < |entries| ==> |entries[i].bindings| <= 1 {
      forall i | 0 <= i < |xs| ensures |xs[i]| == 1 {
        assert xs[i] == EntryStrings(entries[i]);
      }
    }
    Seqs.FlattenCount(xs);
  }

  /**
   * A string is in the list exactly when some port key produces it: a binding
   * string of one of its bindings, or its bare port when it has none.
   */
  lemma PortStringsMembership(entries: seq<PortEntry>, s: string)
    ensures s in PortStrings(entries) <==> exists i :: 0 <= i < |entries| && s in EntryStrings(entries[i])
  {
    Seqs.FlattenMembership(EntryLists(entries), s);
  }

  /** The host address a binding string carries: none for "" and for 0.0.0.0. */
  function EffectiveHostIp(b: PortBinding): string {
    if b.hostIp != "" && b.hostIp != "0.0.0.0" then b.hostIp else ""
  }

  /** Reads a binding string back from the right: (host address, host port, container port). */
  function ParseBindingString(s: string): (string, string, string) {
    var pieces := Split(s, ':');
    if |pieces| < 2 then ("", "", pieces[0])
    else (Join(pieces[..|pieces| - 2], ":"), pieces[|pieces| - 2], pieces[|pieces| - 1])
  }

  /**
   * A binding string is unambiguous: when the host and container ports hold
   * no ':', the address (even an IPv6 one), host port and container port
   * are recovered from it, with 0.0.0.0 read back as no address.
   */
  lemma BindingStringRoundTrip(b: PortBinding, port: string)
    requires ':' !in b.hostPort && ':' !in port
    ensures ParseBindingString(BindingString(b, port)) == (EffectiveHostIp(b), b.hostPort, port)
  {
    var tail := b.hostPort + [':'] + port;
    TailSplit(b.hostPort, port);
    BindingStringShape(b, port);
    if EffectiveHostIp(b) == "" {
      UnaddressedRoundTrip(tail, b.hostPort, port);
    } else {
      AddressedRoundTrip(b.hostIp, tail, b.hostPort, port);
    }
  }

  lemma BindingStringShape(b: PortBinding, port: string)
    ensures BindingString(b, port) ==
      if EffectiveHostIp(b) == "" then b.hostPort + [':'] + port
      else b.hostIp + [':'] + (b.hostPort + [':'] + port)
  {
  }

  lemma UnaddressedRoundTrip(tail: string, hostPort: string, port: string)
    requires Split(tail, ':') == [hostPort, port]
    ensures ParseBindingString(tail) == ("", hostPort, port)
  {
    var pieces := Split(tail, ':');
    assert pieces[..0] == [];
  }

  /** The ports part of a binding string splits into its two ports. */
  lemma TailSplit(hostPort: string, port: string)
    requires ':' !in hostPort && ':' !in port
    ensures Split(hostPort + [':'] + port, ':') == [hostPort, port]
  {
    var parts := [hostPort, port];
    assert parts[1..] == [port];
    assert Join(parts, [':']) == hostPort + [':'] + port;
    SplitJoin(parts, ':');
  }

  lemma AddressedRoundTrip(ip: string, tail: string, hostPort: string, port: string)
    requires Split(tail, ':') == [hostPort, port]
    ensures ParseBindingString(ip + [':'] + tail) == (ip, hostPort, port)
  {
    SplitConcat(ip, ':', tail);
    var ipPieces := Split(ip, ':');
    var pieces := ipPieces + [hostPort, port];
    assert pieces[..|pieces| - 2] == ipPieces;
    JoinSplit(ip, ':');
  }
}
