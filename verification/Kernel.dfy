/** The kernel's network links, as far as netlink shows and changes them. */
module Kernel {
  import opened Text
  import opened NodeStore

  datatype Ns = Host | PodNs(path: string)

  datatype Link = Link(ns: Ns, name: string, mac: string, mtu: int, addrs: set<Address>, up: bool)

  type Links = map<nat, Link>

  /** Two addresses of one link differ in prefix or peer. */
  predicate SameAddress(a: Address, b: Address) {
    a.cidr == b.cidr && a.peer == b.peer
  }

  ghost predicate AddressesDistinct(addrs: set<Address>) {
    forall a, b :: a in addrs && b in addrs && SameAddress(a, b) ==> a == b
  }

  ghost predicate NamesUnique(links: Links) {
    forall i, j :: i in links && j in links && links[i].ns == links[j].ns && links[i].name == links[j].name ==> i == j
  }

  ghost predicate ValidLinks(links: Links) {
    NamesUnique(links) && forall i :: i in links ==> AddressesDistinct(links[i].addrs)
  }

  ghost predicate OnlyChanges(before: Links, after: Links, i: nat) {
    after.Keys == before.Keys && forall j :: j in before && j != i ==> after[j] == before[j]
  }

  datatype AddResult = Added | AlreadyThere | AddFailed

  /** A link of the namespace other than `i` has the name. */
  ghost predicate NameTaken(links: Links, ns: Ns, name: string, i: nat) {
    exists j :: j in links && j != i && links[j].ns == ns && links[j].name == name
  }

  /** Each operation either succeeds or fails without effect. What the kernel refuses, because a name is taken, is no
      failure. */
  class Netlink {
    var links: Links
    ghost var undeleted: bool  // an address delete has failed; taken back when the restore it was part of fails, too
    ghost var failures: nat    // the calls that failed, lookups included

    ghost predicate Valid()
      reads this`links
    {
      ValidLinks(links)
    }

    method LinkByName(ns: Ns, name: string) returns (r: Option<nat>)
      modifies this`failures
      ensures r.Some? ==> r.value in links && links[r.value].ns == ns && links[r.value].name == name
      ensures failures == old(failures) || (r.None? && failures == old(failures) + 1)
      ensures failures == old(failures) ==> (r.Some? <==> exists i :: i in links && links[i].ns == ns && links[i].name == name)
    {
      var broken: bool := *;
      if broken {
        failures := failures + 1;
        return None;
      }
      if i :| i in links && links[i].ns == ns && links[i].name == name {
        return Some(i);
      }
      return None;
    }

    method LinkByMac(ns: Ns, mac: string) returns (r: Option<nat>)
      modifies this`failures
      ensures r.Some? ==> r.value in links && links[r.value].ns == ns && links[r.value].mac == mac
      ensures failures == old(failures) || (r.None? && failures == old(failures) + 1)
      ensures failures == old(failures) ==> (r.Some? <==> exists i :: i in links && links[i].ns == ns && links[i].mac == mac)
    {
      var broken: bool := *;
      if broken {
        failures := failures + 1;
        return None;
      }
      if i :| i in links && links[i].ns == ns && links[i].mac == mac {
        return Some(i);
      }
      return None;
    }

    /** findLink: by name if one is given and found, else by hardware address. When the lookups work, the link
        with the preferred name wins, and nothing is found only if no link has either. */
    method FindLink(ns: Ns, preferredName: string, mac: string) returns (r: Option<nat>)
      modifies this`failures
      ensures failures >= old(failures)
      ensures r.Some? ==> r.value in links && links[r.value].ns == ns
      ensures r.Some? ==> (preferredName != "" && links[r.value].name == preferredName)
                          || (mac != "" && links[r.value].mac == mac)
      ensures failures == old(failures) && preferredName != ""
              && (exists i :: i in links && links[i].ns == ns && links[i].name == preferredName) ==>
                r.Some? && links[r.value].name == preferredName
      ensures failures == old(failures) && mac != "" && (exists i :: i in links && links[i].ns == ns && links[i].mac == mac) ==> r.Some?
    {
      if preferredName != "" {
        r := LinkByName(ns, preferredName);
        if r.Some? {
          return;
        }
      }
      if mac == "" {
        return None;
      }
      r := LinkByMac(ns, mac);
    }

    /** Taking a link down may drop addresses from it. */
    method SetDown(i: nat) returns (ok: bool)
      requires Valid() && i in links
      modifies this`links, this`failures
      ensures Valid() && OnlyChanges(old(links), links, i) && failures == old(failures) + (if ok then 0 else 1)
      ensures !ok || !old(links[i].up) ==> links == old(links)
      ensures ok ==> !links[i].up
      ensures links[i].addrs <= old(links[i].addrs) && links[i] == old(links[i]).(up := links[i].up, addrs := links[i].addrs)
    {
      ok := *;
      if !ok {
        failures := failures + 1;
      } else if links[i].up {
        var kept: set<Address> :| kept <= links[i].addrs;
        links := links[i := links[i].(up := false, addrs := kept)];
      }
    }

    method SetUp(i: nat) returns (ok: bool)
      requires Valid() && i in links
      modifies this`links, this`failures
      ensures Valid() && failures == old(failures) + (if ok then 0 else 1)
      ensures links == if ok then old(links)[i := old(links[i]).(up := true)] else old(links)
    {
      ok := *;
      if ok {
        links := links[i := links[i].(up := true)];
      } else {
        failures := failures + 1;
      }
    }

    /** Two links of a namespace cannot have the same name. */
    method SetName(i: nat, name: string) returns (ok: bool)
      requires Valid() && i in links
      modifies this`links, this`failures
      ensures Valid() && failures >= old(failures)
      ensures links == if ok then old(links)[i := old(links[i]).(name := name)] else old(links)
      ensures ok ==> !NameTaken(old(links), old(links[i].ns), name, i)
      ensures failures == old(failures) && !NameTaken(old(links), old(links[i].ns), name, i) ==> ok
    {
      ok := *;
      if !ok {
        failures := failures + 1;
      } else if exists j :: j in links && j != i && links[j].ns == links[i].ns && links[j].name == name {
        ok := false;
      }
      if ok {
        links := links[i := links[i].(name := name)];
      }
    }

    method SetMtu(i: nat, mtu: int) returns (ok: bool)
      requires Valid() && i in links
      modifies this`links, this`failures
      ensures Valid() && failures == old(failures) + (if ok then 0 else 1)
      ensures links == if ok then old(links)[i := old(links[i]).(mtu := mtu)] else old(links)
    {
      ok := *;
      if ok {
        links := links[i := links[i].(mtu := mtu)];
      } else {
        failures := failures + 1;
      }
    }

    method SetMac(i: nat, mac: string) returns (ok: bool)
      requires Valid() && i in links
      modifies this`links, this`failures
      ensures Valid() && failures == old(failures) + (if ok then 0 else 1)
      ensures links == if ok then old(links)[i := old(links[i]).(mac := mac)] else old(links)
    {
      ok := *;
      if ok {
        links := links[i := links[i].(mac := mac)];
      } else {
        failures := failures + 1;
      }
    }

    /** A moved link arrives down, and may have lost addresses. */
    method SetNs(i: nat, ns: Ns) returns (ok: bool)
      requires Valid() && i in links
      modifies this`links, this`failures
      ensures Valid() && OnlyChanges(old(links), links, i) && failures >= old(failures)
      ensures !ok ==> links == old(links)
      ensures ok ==> links[i].addrs <= old(links[i].addrs)
                     && links[i] == old(links[i]).(ns := ns, up := false, addrs := links[i].addrs)
      ensures failures == old(failures) && !NameTaken(old(links), ns, old(links[i].name), i) ==> ok
    {
      ok := *;
      if !ok {
        failures := failures + 1;
      } else if exists j :: j in links && j != i && links[j].ns == ns && links[j].name == links[i].name {
        ok := false;
      }
      if ok {
        var kept: set<Address> :| kept <= links[i].addrs;
        links := links[i := links[i].(ns := ns, up := false, addrs := kept)];
      }
    }

    method AddrAdd(i: nat, a: Address) returns (r: AddResult)
      requires Valid() && i in links
      modifies this`links, this`failures
      ensures Valid() && failures == old(failures) + (if r == AddFailed then 1 else 0)
      ensures r == Added ==> links == old(links)[i := old(links[i]).(addrs := old(links[i].addrs) + {a})]
      ensures r == Added ==> forall b :: b in old(links[i].addrs) ==> !SameAddress(a, b)
      ensures r != Added ==> links == old(links)
      ensures r == AlreadyThere ==> exists b :: b in links[i].addrs && SameAddress(a, b)
    {
      var broken: bool := *;
      if broken {
        failures := failures + 1;
        return AddFailed;
      }
      if exists b :: b in links[i].addrs && SameAddress(a, b) {
        return AlreadyThere;
      }
      links := links[i := links[i].(addrs := links[i].addrs + {a})];
      return Added;
    }

    /** A delete that fails leaves the address and a trace. */
    method AddrDel(i: nat, a: Address)
      requires Valid() && i in links
      modifies this`links, this`undeleted, this`failures
      ensures Valid() && OnlyChanges(old(links), links, i) && failures >= old(failures)
      ensures links[i] == old(links[i]).(addrs := links[i].addrs) && links[i].addrs <= old(links[i].addrs)
      ensures old(undeleted) ==> undeleted
      ensures undeleted || (links[i].addrs == old(links[i].addrs) - {a})
      ensures failures == old(failures) ==> undeleted == old(undeleted)
    {
      var broken: bool := *;
      if broken {
        undeleted, failures := true, failures + 1;
      } else {
        links := links[i := links[i].(addrs := links[i].addrs - {a})];
      }
    }

    /** AddrList: the link's addresses in some order. */
    method AddrList(i: nat) returns (ok: bool, addrs: seq<Address>)
      requires i in links
      modifies this`failures
      ensures failures == old(failures) + (if ok then 0 else 1)
      ensures ok ==> |addrs| == |links[i].addrs| && (forall a :: a in addrs <==> a in links[i].addrs)
      ensures ok ==> forall j, k :: 0 <= j < k < |addrs| ==> addrs[j] != addrs[k]
    {
      ok := *;
      if !ok {
        failures := failures + 1;
      }
      addrs := [];
      var left := links[i].addrs;
      while left != {}
        invariant left <= links[i].addrs
        invariant forall a :: a in addrs <==> a in links[i].addrs && a !in left
        invariant |addrs| + |left| == |links[i].addrs|
        invariant forall j, k :: 0 <= j < k < |addrs| ==> addrs[j] != addrs[k]
        decreases |left|
      {
        var a :| a in left;
        addrs := addrs + [a];
        left := left - {a};
      }
    }
  }
}
