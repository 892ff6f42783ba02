/** The API server as one client sees it: calls on allocation objects that may fail, and whose reply may be lost. */
module Api {
  import opened Text
  import opened Allocations
  import opened Protocol

  datatype Item = Item(name: string, stored: Object)

  datatype CreateReply = Created | AlreadyExists | CreateError
  datatype GetReply = Got(stored: Object) | GetNotFound | GetError
  datatype ListReply = Listed(items: seq<Item>) | NoSuchKind | ListError
  datatype DeleteReply = Deleted | DeleteNotFound | DeleteConflict | DeleteError

  /** Every object once, in any order. */
  ghost predicate Lists(objects: map<string, Object>, items: seq<Item>) {
    && (forall item :: item in items ==> item.name in objects && objects[item.name] == item.stored)
    && (forall name :: name in objects ==> Item(name, objects[name]) in items)
    && (forall j, k :: 0 <= j < k < |items| ==> items[j].name != items[k].name)
  }

  class ApiServer {
    var cluster: Cluster
    ghost var writes: nat    // the write calls made
    ghost var failures: nat  // the calls that were not answered
    const nameOf: (string, string) -> string
    const installed: bool    // the kind of the objects is known to the server

    constructor (cluster: Cluster, nameOf: (string, string) -> string, installed: bool)
      ensures this.cluster == cluster && this.nameOf == nameOf && this.installed == installed
    {
      this.cluster, this.nameOf, this.installed := cluster, nameOf, installed;
    }

    method Create(name: string, raw: RawSpec) returns (r: CreateReply)
      modifies this
      ensures writes == old(writes) + 1 && failures == old(failures) + (if r == CreateError then 1 else 0)
      ensures r == Created ==> name !in old(cluster).objects && cluster == Protocol.Create(old(cluster), name, raw)
      ensures r == AlreadyExists ==> name in cluster.objects && cluster == old(cluster)
      ensures r == CreateError ==>
                cluster == old(cluster) || (name !in old(cluster).objects && cluster == Protocol.Create(old(cluster), name, raw))
    {
      writes := writes + 1;
      var unreachable: bool := *;
      if unreachable {
        failures := failures + 1;
        return CreateError;
      }
      if name in cluster.objects {
        return AlreadyExists;
      }
      cluster := Protocol.Create(cluster, name, raw);
      var answered: bool := *;
      if !answered {
        failures := failures + 1;
      }
      return if answered then Created else CreateError;
    }

    method Get(name: string) returns (r: GetReply)
      modifies this`failures
      ensures failures == old(failures) + (if r.GetError? then 1 else 0)
      ensures r.Got? ==> name in cluster.objects && r.stored == cluster.objects[name]
      ensures r.GetNotFound? ==> name !in cluster.objects
    {
      var unreachable: bool := *;
      if unreachable {
        failures := failures + 1;
        return GetError;
      }
      return if name in cluster.objects then Got(cluster.objects[name]) else GetNotFound;
    }

    method List() returns (r: ListReply)
      modifies this`failures
      ensures failures == old(failures) + (if r.ListError? then 1 else 0)
      ensures r.Listed? ==> Lists(cluster.objects, r.items)
      ensures r.NoSuchKind? ==> cluster.objects == map[] && !installed
    {
      var unreachable: bool := *;
      if unreachable {
        failures := failures + 1;
        return ListError;
      }
      if cluster.objects == map[] && !installed {
        return NoSuchKind;
      }
      var items: seq<Item> := [];
      var left := cluster.objects.Keys;
      while left != {}
        invariant left <= cluster.objects.Keys
        invariant forall item :: item in items ==> item.name in cluster.objects && item.name !in left && cluster.objects[item.name] == item.stored
        invariant forall name :: name in cluster.objects && name !in left ==> Item(name, cluster.objects[name]) in items
        invariant forall j, k :: 0 <= j < k < |items| ==> items[j].name != items[k].name
        decreases left
      {
        var name :| name in left;
        items := items + [Item(name, cluster.objects[name])];
        left := left - {name};
      }
      return Listed(items);
    }

    /** A Delete with a UID precondition. */
    method Delete(name: string, uid: nat, release: bool) returns (r: DeleteReply)
      modifies this
      ensures writes == old(writes) + 1 && failures == old(failures) + (if r == DeleteError then 1 else 0)
      ensures r == Deleted ==> DeleteHits(old(cluster), name, uid) && cluster == Protocol.Delete(old(cluster), name, uid, release)
      ensures r == DeleteNotFound ==> name !in cluster.objects && cluster == old(cluster)
      ensures r == DeleteConflict ==> name in cluster.objects && cluster.objects[name].uid != uid && cluster == old(cluster)
      ensures r == DeleteError ==> cluster == old(cluster) || cluster == Protocol.Delete(old(cluster), name, uid, release)
    {
      writes := writes + 1;
      var unreachable: bool := *;
      if unreachable {
        failures := failures + 1;
        return DeleteError;
      }
      if name !in cluster.objects {
        return DeleteNotFound;
      }
      if cluster.objects[name].uid != uid {
        return DeleteConflict;
      }
      cluster := Protocol.Delete(cluster, name, uid, release);
      var answered: bool := *;
      if !answered {
        failures := failures + 1;
      }
      return if answered then Deleted else DeleteError;
    }
  }
}
