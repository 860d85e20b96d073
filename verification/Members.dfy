/** The members that gossip knows, and which of them are servers. */
module Members {
  import opened Wrappers
  import opened Text

  datatype Status = Alive | Leaving | Left | Failed | Reap

  /** A member; addr is the text of its address as it stands in front of a port. */
  datatype Member = Member(name: string, addr: string, tags: map<string, string>, status: Status)

  /** Looking up a key that a Go map lacks gives the empty text. */
  function TagOf(m: Member, key: string): string {
    if key in m.tags then m.tags[key] else ""
  }

  /** What a server says of itself, as far as Raft peers depend on it. */
  datatype Parts = Parts(region: string, bootstrap: bool, address: string)

  /** A server carries the role, says so, has a port and, if it expects a number of servers, a number there.
      It is a bootstrap node if it is tagged so or expects one server only. */
  lemma ServerIff(m: Member)
    ensures IsServer(m).Some? <==>
            && "role" in m.tags && m.tags["role"] == "dkron" && "server" in m.tags && m.tags["server"] == "true"
            && "port" in m.tags && Atoi(m.tags["port"]).Some?
            && ("expect" in m.tags ==> Atoi(m.tags["expect"]).Some?)
    ensures IsServer(m).Some? ==>
              var parts := IsServer(m).value;
              && parts.region == (if "region" in m.tags then m.tags["region"] else "")
              && (parts.bootstrap <==>
                    "bootstrap" in m.tags || ("expect" in m.tags && Atoi(m.tags["expect"]) == Some(1)))
              && parts.address == m.addr + ":" + Itoa(Atoi(m.tags["port"]).value)
  {
  }

  function IsServer(m: Member): Option<Parts> {
    if TagOf(m, "role") != "dkron" || TagOf(m, "server") != "true" then None
    else
      var quorum := if "expect" in m.tags then Atoi(m.tags["expect"]) else Some(0);
      var port := Atoi(TagOf(m, "port"));
      if quorum.None? || port.None? then None
      else
        Some(Parts(TagOf(m, "region"), "bootstrap" in m.tags || quorum.value == 1,
                   m.addr + ":" + Itoa(port.value)))
  }
}
