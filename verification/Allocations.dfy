/** The IPAllocation object: what is written to the cluster and what is read back. */
module Allocations {
  import opened Text

  datatype Ref = Ref(namespace: string, name: string, uid: string)

  /** The stored spec. A nested string that is missing reads as the empty string. */
  datatype RawSpec =
    | NoSpec
    | RawSpec(poolRef: string, address: string, allocationType: string, claim: Ref, pod: Ref, nodeName: string)

  datatype Allocation = Allocation(
    name: string, pool: string, address: string, allocationType: string, claim: Ref, pod: Ref, nodeName: string)

  const DYNAMIC := "Dynamic"
  const STATIC := "Static"

  /** White space as unicode.IsSpace has it. */
  predicate IsSpace(c: char) {
    || c in "\t\n\r \U{000B}\U{000C}\U{0085}\U{00A0}\U{1680}\U{2028}\U{2029}\U{202F}\U{205F}\U{3000}"
    || '\U{2000}' <= c <= '\U{200A}'
  }

  /** strings.TrimSpace(s) == "" */
  predicate Blank(s: string) {
    forall i :: 0 <= i < |s| ==> IsSpace(s[i])
  }

  function NewSpec(a: Allocation): RawSpec {
    RawSpec(a.pool, a.address, a.allocationType, a.claim, a.pod, a.nodeName)
  }

  /** ParseAllocation: an object without a spec, pool, address or claim UID is malformed. */
  function Parse(name: string, raw: RawSpec): (r: Option<Allocation>)
    ensures r.Some? ==> NewSpec(r.value) == raw && r.value.name == name
  {
    match raw
    case NoSpec => None
    case RawSpec(pool, address, kind, claim, pod, node) =>
      if Blank(pool) || Blank(address) || claim.uid == "" then None
      else Some(Allocation(name, pool, address, kind, claim, pod, node))
  }

  /** Writing then parsing gives the allocation back, exactly when the three mandatory fields are there. */
  lemma ParseNewSpec(a: Allocation)
    ensures Parse(a.name, NewSpec(a)) == Some(a)
            <==> !Blank(a.pool) && !Blank(a.address) && a.claim.uid != ""
  {
  }
}
