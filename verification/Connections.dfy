/** The host's registry of control connections, one per member (crates/peercove-cli/src/control.rs, 78-106). */
module Connections {
  import opened Options

  type Ip = nat
  type Id = nat

  datatype Action = Register(ip: Ip, id: Id) | Unregister(ip: Ip, id: Id)

  function Next(m: map<Ip, Id>, a: Action): map<Ip, Id> {
    match a
    case Register(ip, id) => m[ip := id]
    case Unregister(ip, id) => if Lookup(m, ip) == Some(id) then m - {ip} else m
  }

  function Run(actions: seq<Action>): map<Ip, Id> {
    if actions == [] then map[] else Next(Run(actions[..|actions| - 1]), actions[|actions| - 1])
  }

  class Registry {
    var connections: map<Ip, Id>

    /** The connection that was there before is told to close. */
    method RegisterConnection(ip: Ip, id: Id) returns (closed: Option<Id>)
      modifies this
      ensures connections == Next(old(connections), Register(ip, id))
      ensures closed == Lookup(old(connections), ip)
    {
      closed := Lookup(connections, ip);
      connections := connections[ip := id];
    }

    method UnregisterConnection(ip: Ip, id: Id) returns (removed: bool)
      modifies this
      ensures connections == Next(old(connections), Unregister(ip, id))
      ensures removed <==> ip in old(connections) && ip !in connections
    {
      removed := ip in connections && connections[ip] == id;
      if removed {
        connections := connections - {ip};
      }
    }
  }

  /** The connection was registered at step `i`; since then no other has been, and it has not ended. */
  ghost predicate Current(actions: seq<Action>, i: nat, ip: Ip, id: Id) {
    && i < |actions| && actions[i] == Register(ip, id)
    && forall j | i < j < |actions| :: actions[j] != Unregister(ip, id) && !(actions[j].Register? && actions[j].ip == ip)
  }

  /**
    In whatever order connections come and go, the registry has exactly the newest one of each member
    for as long as it lasts; the late end of an older one changes nothing.
  */
  lemma {:induction false} NewestIsRegistered(actions: seq<Action>, ip: Ip, id: Id)
    ensures Lookup(Run(actions), ip) == Some(id) <==> exists i: nat :: Current(actions, i, ip, id)
  {
    if actions != [] {
      var n := |actions| - 1;
      var before, last := actions[..n], actions[n];
      NewestIsRegistered(before, ip, id);
      if i: nat :| Current(before, i, ip, id) {
        assert Current(actions, i, ip, id) <==> last != Unregister(ip, id) && !(last.Register? && last.ip == ip);
      }
      if i: nat :| Current(actions, i, ip, id) {
        assert i < n ==> Current(before, i, ip, id);
      }
      if last == Register(ip, id) {
        assert Current(actions, n, ip, id);
      }
    }
  }
}
