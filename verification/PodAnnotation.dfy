/** The network annotation of a pod: each device is merged into the list, which is then sorted. */
module PodAnnotation {
  import opened Text

  /** An entry; `body` stands for the fields that are neither matched nor compared. */
  datatype Entry = Entry(ifname: string, namespace: string, claim: string, pci: string, body: string)

  datatype SortKey = SortKey(ifname: string, claim: string, pci: string)

  function KeyOf(e: Entry): SortKey {
    SortKey(e.ifname, e.claim, e.pci)
  }

  /** The order of the sort. */
  predicate Precedes(e: Entry, f: Entry) {
    if e.ifname == f.ifname then
      if e.claim == f.claim then Less(e.pci, f.pci) else Less(e.claim, f.claim)
    else Less(e.ifname, f.ifname)
  }

  predicate SameSlot(e: Entry, f: Entry) {
    e.namespace == f.namespace && e.claim == f.claim && e.ifname == f.ifname
  }

  /** A status without PCI address takes the place of any entry of its claim and interface. */
  predicate Replaces(status: Entry, existing: Entry) {
    SameSlot(existing, status) && (status.pci == "" || existing.pci == status.pci)
  }

  function Upsert(list: seq<Entry>, status: Entry): seq<Entry> {
    if list == [] then [status]
    else if Replaces(status, list[0]) then [status] + list[1..]
    else [list[0]] + Upsert(list[1..], status)
  }

  function Insert(e: Entry, list: seq<Entry>): seq<Entry> {
    if list == [] then [e]
    else if Precedes(list[0], e) then [list[0]] + Insert(e, list[1..])
    else [e] + list
  }

  function Sort(list: seq<Entry>): seq<Entry> {
    if list == [] then [] else Insert(list[0], Sort(list[1..]))
  }

  /** The annotation after these reports, one at a time. */
  function Published(base: seq<Entry>, reports: seq<Entry>): seq<Entry> {
    if reports == [] then base
    else Sort(Upsert(Published(base, reports[..|reports| - 1]), reports[|reports| - 1]))
  }

  /** The replace-or-append loop of setPodNetworkStatus. */
  method MergeStatus(statuses: seq<Entry>, status: Entry) returns (merged: seq<Entry>)
    ensures merged == Upsert(statuses, status)
  {
    merged := statuses;
    var replaced := false;
    for i := 0 to |statuses|
      invariant merged == statuses && !replaced
      invariant Upsert(statuses, status) == statuses[..i] + Upsert(statuses[i..], status)
    {
      if Replaces(status, merged[i]) {
        merged := merged[i := status];
        replaced := true;
        assert merged == statuses[..i] + ([status] + statuses[i..][1..]);
        break;
      }
      PassedBy(statuses, status, i);
    }
    if !replaced {
      merged := merged + [status];
    }
  }

  lemma PassedBy(statuses: seq<Entry>, status: Entry, i: nat)
    requires i < |statuses| && !Replaces(status, statuses[i])
    ensures statuses[..i] + Upsert(statuses[i..], status) == statuses[..i + 1] + Upsert(statuses[i + 1..], status)
  {
    assert statuses[i..][1..] == statuses[i + 1..];
    assert statuses[..i + 1] == statuses[..i] + [statuses[i]];
  }

  // ---------------------------------------------------------------- sorting

  lemma PrecedesTotal(e: Entry, f: Entry)
    ensures Precedes(e, f) || Precedes(f, e) || KeyOf(e) == KeyOf(f)
    ensures !(Precedes(e, f) && Precedes(f, e))
    ensures KeyOf(e) == KeyOf(f) ==> !Precedes(e, f)
  {
    LessTotal(e.ifname, f.ifname);
    LessTotal(e.claim, f.claim);
    LessTotal(e.pci, f.pci);
  }

  lemma PrecedesTransitive(e: Entry, f: Entry, g: Entry)
    requires Precedes(e, f) && Precedes(f, g)
    ensures Precedes(e, g)
  {
    LessTotal(e.ifname, f.ifname);
    LessTotal(e.claim, f.claim);
    if e.ifname != f.ifname && f.ifname != g.ifname {
      LessTransitive(e.ifname, f.ifname, g.ifname);
    } else if e.ifname == f.ifname == g.ifname {
      if e.claim != f.claim && f.claim != g.claim {
        LessTransitive(e.claim, f.claim, g.claim);
      } else if e.claim == f.claim == g.claim {
        LessTransitive(e.pci, f.pci, g.pci);
      }
    }
  }

  ghost predicate Before(e: Entry, list: seq<Entry>) {
    forall x :: x in list ==> Precedes(e, x)
  }

  ghost predicate StrictlySorted(list: seq<Entry>) {
    list == [] || (Before(list[0], list[1..]) && StrictlySorted(list[1..]))
  }

  ghost predicate NoKey(list: seq<Entry>, key: SortKey) {
    forall x :: x in list ==> KeyOf(x) != key
  }

  ghost predicate Distinct(list: seq<Entry>) {
    list == [] || (NoKey(list[1..], KeyOf(list[0])) && Distinct(list[1..]))
  }

  lemma {:induction false} InsertMembers(e: Entry, list: seq<Entry>, x: Entry)
    ensures x in Insert(e, list) <==> x == e || x in list
    ensures |Insert(e, list)| == |list| + 1
  {
    if list != [] {
      InsertMembers(e, list[1..], x);
      assert list == [list[0]] + list[1..];
    }
  }

  lemma {:induction false} InsertSorted(e: Entry, list: seq<Entry>)
    requires StrictlySorted(list) && NoKey(list, KeyOf(e))
    ensures StrictlySorted(Insert(e, list))
  {
    if list == [] {
    } else if Precedes(list[0], e) {
      InsertSorted(e, list[1..]);
      assert Insert(e, list)[1..] == Insert(e, list[1..]);
      forall x | x in Insert(e, list[1..])
        ensures Precedes(list[0], x)
      {
        InsertMembers(e, list[1..], x);
      }
    } else {
      assert Insert(e, list)[1..] == list;
      forall x | x in list
        ensures Precedes(e, x)
      {
        PrecedesTotal(list[0], e);
        assert list[0] in list;
        if x != list[0] {
          assert x in list[1..];
          PrecedesTransitive(e, list[0], x);
        }
      }
    }
  }

  lemma {:induction false} SortMembers(list: seq<Entry>, x: Entry)
    ensures x in Sort(list) <==> x in list
    ensures |Sort(list)| == |list|
  {
    if list != [] {
      SortMembers(list[1..], x);
      InsertMembers(list[0], Sort(list[1..]), x);
      assert list == [list[0]] + list[1..];
    }
  }

  lemma {:induction false} SortSorted(list: seq<Entry>)
    requires Distinct(list)
    ensures StrictlySorted(Sort(list))
  {
    if list != [] {
      SortSorted(list[1..]);
      forall x | x in Sort(list[1..])
        ensures KeyOf(x) != KeyOf(list[0])
      {
        SortMembers(list[1..], x);
      }
      InsertSorted(list[0], Sort(list[1..]));
    }
  }

  lemma {:induction false} SortedDistinct(list: seq<Entry>)
    requires StrictlySorted(list)
    ensures Distinct(list)
  {
    if list != [] {
      SortedDistinct(list[1..]);
      forall x | x in list[1..]
        ensures KeyOf(x) != KeyOf(list[0])
      {
        PrecedesTotal(list[0], x);
      }
    }
  }

  /** A sorted list is determined by its members: how the sort works, or breaks ties, does not matter. */
  lemma {:induction false} SortedUnique(s: seq<Entry>, t: seq<Entry>)
    requires StrictlySorted(s) && StrictlySorted(t) && forall x :: x in s <==> x in t
    ensures s == t
  {
    assert s != [] ==> s[0] in t;
    assert t != [] ==> t[0] in s;
    if s != [] {
      assert s[0] in t && t[0] in s;
      PrecedesTotal(s[0], t[0]);
      PrecedesTotal(s[0], s[0]);
      assert s == [s[0]] + s[1..] && t == [t[0]] + t[1..];
      assert s[0] == t[0];
      forall x
        ensures x in s[1..] <==> x in t[1..]
      {
        assert x in s <==> x in t;
        assert s[0] !in s[1..] && t[0] !in t[1..];
      }
      SortedUnique(s[1..], t[1..]);
    }
  }

  /** Read from top to bottom, a sorted list has interface names ascending, under one name claims, and under one claim
      PCI addresses. */
  lemma {:induction false} SortedReads(list: seq<Entry>, i: nat, j: nat)
    requires StrictlySorted(list) && i < j < |list|
    ensures var e, f := list[i], list[j];
            || Less(e.ifname, f.ifname)
            || (e.ifname == f.ifname && (Less(e.claim, f.claim) || (e.claim == f.claim && Less(e.pci, f.pci))))
  {
    if i == 0 {
      assert list[j] == list[1..][j - 1] && list[j] in list[1..];
    } else {
      SortedReads(list[1..], i - 1, j - 1);
    }
  }

  // ---------------------------------------------------------------- merging

  /** Of two entries for one claim and interface, either both have a PCI address or none has. */
  predicate Compatible(e: Entry, f: Entry) {
    SameSlot(e, f) ==> (e.pci == "" <==> f.pci == "")
  }

  /** All in the pod's namespace. */
  ghost predicate OneNamespace(list: seq<Entry>) {
    forall e, f :: e in list && f in list ==> e.namespace == f.namespace
  }

  ghost predicate Harmonious(list: seq<Entry>) {
    forall e, f :: e in list && f in list ==> Compatible(e, f)
  }

  /** Among compatible entries, merging is a map update. */
  lemma {:induction false} UpsertMembers(list: seq<Entry>, s: Entry, x: Entry)
    requires Distinct(list) && forall e :: e in list ==> Compatible(e, s) && e.namespace == s.namespace
    ensures x in Upsert(list, s) <==> x == s || (x in list && KeyOf(x) != KeyOf(s))
  {
    if list != [] {
      var rest := list[1..];
      assert list[0] in list && list == [list[0]] + rest;
      assert Replaces(s, list[0]) <==> KeyOf(list[0]) == KeyOf(s);
      if !Replaces(s, list[0]) {
        UpsertMembers(rest, s, x);
      }
    }
  }

  lemma {:induction false} UpsertDistinct(list: seq<Entry>, s: Entry)
    requires Distinct(list) && forall e :: e in list ==> Compatible(e, s) && e.namespace == s.namespace
    ensures Distinct(Upsert(list, s))
  {
    if list == [] {
      assert Upsert(list, s)[1..] == [];
    } else {
      var rest := list[1..];
      assert list[0] in list;
      assert Replaces(s, list[0]) <==> KeyOf(list[0]) == KeyOf(s);
      if Replaces(s, list[0]) {
        assert Upsert(list, s)[1..] == rest;
      } else {
        UpsertDistinct(rest, s);
        assert Upsert(list, s)[1..] == Upsert(rest, s);
        forall x | x in Upsert(rest, s)
          ensures KeyOf(x) != KeyOf(list[0])
        {
          UpsertMembers(rest, s, x);
        }
      }
    }
  }

  lemma {:induction false} DistinctLast(list: seq<Entry>)
    requires Distinct(list) && list != []
    ensures Distinct(list[..|list| - 1]) && NoKey(list[..|list| - 1], KeyOf(list[|list| - 1]))
  {
    if |list| > 1 {
      var rest := list[1..];
      DistinctLast(rest);
      assert list[..|list| - 1] == [list[0]] + rest[..|rest| - 1];
      assert list[|list| - 1] in rest;
    }
  }

  /** What the annotation holds: the reports, and the entries there were for which nothing was reported. */
  lemma {:induction false} PublishedMembers(base: seq<Entry>, reports: seq<Entry>, x: Entry)
    requires Distinct(base) && Distinct(reports) && Harmonious(base + reports) && OneNamespace(base + reports)
    ensures x in Published(base, reports) <==> x in reports || (x in base && NoKey(reports, KeyOf(x)))
  {
    if reports != [] {
      var most, last := reports[..|reports| - 1], reports[|reports| - 1];
      assert reports == most + [last];
      DistinctLast(reports);
      PublishedFits(base, most, last);
      PublishedMembers(base, most, x);
      PublishedDistinct(base, most);
      UpsertMembers(Published(base, most), last, x);
      SortMembers(Upsert(Published(base, most), last), x);
    }
  }

  lemma {:induction false} PublishedDistinct(base: seq<Entry>, reports: seq<Entry>)
    requires Distinct(base) && Distinct(reports) && Harmonious(base + reports) && OneNamespace(base + reports)
    ensures Distinct(Published(base, reports))
    ensures reports != [] ==> StrictlySorted(Published(base, reports))
    decreases |reports|
  {
    if reports != [] {
      var most, last := reports[..|reports| - 1], reports[|reports| - 1];
      assert reports == most + [last];
      DistinctLast(reports);
      PublishedFits(base, most, last);
      PublishedDistinct(base, most);
      StepDistinct(Published(base, most), last);
    }
  }

  lemma StepDistinct(list: seq<Entry>, s: Entry)
    requires Distinct(list) && forall e :: e in list ==> Compatible(e, s) && e.namespace == s.namespace
    ensures StrictlySorted(Sort(Upsert(list, s))) && Distinct(Sort(Upsert(list, s)))
  {
    UpsertDistinct(list, s);
    SortSorted(Upsert(list, s));
    SortedDistinct(Sort(Upsert(list, s)));
  }

  /** Nothing is made up: every entry was there or was reported. */
  lemma {:induction false} PublishedFrom(base: seq<Entry>, reports: seq<Entry>, x: Entry)
    requires x in Published(base, reports)
    ensures x in base + reports
  {
    if reports != [] {
      var most, last := reports[..|reports| - 1], reports[|reports| - 1];
      assert reports == most + [last];
      SortMembers(Upsert(Published(base, most), last), x);
      UpsertFrom(Published(base, most), last, x);
      if x in Published(base, most) {
        PublishedFrom(base, most, x);
      }
    }
  }

  lemma {:induction false} UpsertFrom(list: seq<Entry>, s: Entry, x: Entry)
    requires x in Upsert(list, s)
    ensures x == s || x in list
  {
    if list != [] && !Replaces(s, list[0]) && x != list[0] {
      UpsertFrom(list[1..], s, x);
    }
  }

  lemma PublishedFits(base: seq<Entry>, most: seq<Entry>, last: Entry)
    requires Harmonious(base + (most + [last])) && OneNamespace(base + (most + [last]))
    ensures forall e :: e in Published(base, most) ==> Compatible(e, last) && e.namespace == last.namespace
    ensures Harmonious(base + most) && OneNamespace(base + most)
  {
    assert forall e :: e in base + most ==> e in base + (most + [last]);
    assert last in base + (most + [last]);
    forall e | e in Published(base, most)
      ensures Compatible(e, last) && e.namespace == last.namespace
    {
      PublishedFrom(base, most, e);
    }
  }

  // ---------------------------------------------------------------- order

  lemma {:induction false} DistinctOnce(list: seq<Entry>, x: Entry)
    requires Distinct(list)
    ensures multiset(list)[x] <= 1
  {
    if list != [] {
      DistinctOnce(list[1..], x);
      assert list == [list[0]] + list[1..];
      assert list[0] !in list[1..];
    }
  }

  lemma {:induction false} DistinctAgain(t: seq<Entry>)
    requires (forall x :: multiset(t)[x] <= 1) && (forall x, y :: x in t && y in t && KeyOf(x) == KeyOf(y) ==> x == y)
    ensures Distinct(t)
  {
    if t != [] {
      assert t == [t[0]] + t[1..];
      assert multiset(t) == multiset{t[0]} + multiset(t[1..]);
      assert multiset(t)[t[0]] <= 1;
      assert t[0] !in t[1..];
      forall x
        ensures multiset(t[1..])[x] <= 1
      {
        assert multiset(t)[x] <= 1;
      }
      DistinctAgain(t[1..]);
    }
  }

  lemma {:induction false} DistinctSeparates(list: seq<Entry>, x: Entry, y: Entry)
    requires Distinct(list) && x in list && y in list && KeyOf(x) == KeyOf(y)
    ensures x == y
  {
    if x != list[0] && y != list[0] {
      DistinctSeparates(list[1..], x, y);
    }
  }

  lemma SameMembers(s: seq<Entry>, t: seq<Entry>)
    requires multiset(s) == multiset(t)
    ensures forall x :: x in s <==> x in t
  {
    forall x
      ensures x in s <==> x in t
    {
      assert x in s <==> x in multiset(s);
      assert x in t <==> x in multiset(t);
    }
  }

  lemma DistinctPermutes(s: seq<Entry>, t: seq<Entry>)
    requires Distinct(s) && multiset(s) == multiset(t)
    ensures Distinct(t)
  {
    SameMembers(s, t);
    forall x
      ensures multiset(t)[x] <= 1
    {
      DistinctOnce(s, x);
    }
    forall x, y | x in t && y in t && KeyOf(x) == KeyOf(y)
      ensures x == y
    {
      DistinctSeparates(s, x, y);
    }
    DistinctAgain(t);
  }

  /** The annotation is determined by which devices are reported. */
  lemma ReportsDetermine(base: seq<Entry>, s: seq<Entry>, t: seq<Entry>)
    requires Distinct(base) && Distinct(s) && Distinct(t) && Harmonious(base + s) && OneNamespace(base + s)
    requires forall x :: x in s <==> x in t
    ensures Published(base, s) == Published(base, t)
  {
    assert forall x :: x in base + s <==> x in base + t;
    assert t != [] ==> t[0] in s;
    if s != [] {
      assert s[0] in t;
      PublishedDistinct(base, s);
      PublishedDistinct(base, t);
      forall x
        ensures x in Published(base, s) <==> x in Published(base, t)
      {
        PublishedMembers(base, s, x);
        PublishedMembers(base, t, x);
      }
      SortedUnique(Published(base, s), Published(base, t));
    }
  }

  /** The annotation does not depend on the order in which the devices are reported. */
  lemma OrderIrrelevant(base: seq<Entry>, s: seq<Entry>, t: seq<Entry>)
    requires Distinct(base) && Distinct(s) && Harmonious(base + s) && OneNamespace(base + s)
    requires multiset(s) == multiset(t)
    ensures Published(base, s) == Published(base, t)
  {
    SameMembers(s, t);
    DistinctPermutes(s, t);
    ReportsDetermine(base, s, t);
  }

  // ---------------------------------------------------------------- and exactly when

  /** The first entry for this claim and interface: the one that a status without PCI address replaces. */
  function Leader(list: seq<Entry>, s: Entry): Option<Entry> {
    if list == [] then None
    else if SameSlot(list[0], s) then Some(list[0])
    else Leader(list[1..], s)
  }

  lemma {:induction false} LeaderLeast(list: seq<Entry>, s: Entry)
    requires StrictlySorted(list)
    ensures Leader(list, s).Some? ==> Leader(list, s).value in list && SameSlot(Leader(list, s).value, s)
    ensures forall x :: x in list && SameSlot(x, s) ==>
              Leader(list, s).Some? && (x == Leader(list, s).value || Precedes(Leader(list, s).value, x))
  {
    if list != [] {
      LeaderLeast(list[1..], s);
      assert list == [list[0]] + list[1..];
    }
  }

  /** What a status takes the place of: its own key's entry, or without PCI address the leader of its slot. */
  ghost predicate Displaces(list: seq<Entry>, s: Entry, x: Entry) {
    if s.pci == "" then Leader(list, s) == Some(x) else KeyOf(x) == KeyOf(s)
  }

  ghost predicate InNamespace(list: seq<Entry>, namespace: string) {
    forall e :: e in list ==> e.namespace == namespace
  }

  lemma {:induction false} UpsertAny(list: seq<Entry>, s: Entry, x: Entry)
    requires StrictlySorted(list) && InNamespace(list, s.namespace)
    ensures x in Upsert(list, s) <==> x == s || (x in list && !Displaces(list, s, x))
    ensures Distinct(Upsert(list, s))
  {
    if list == [] {
      assert Upsert(list, s)[1..] == [];
    } else {
      var rest := list[1..];
      assert list[0] in list && list == [list[0]] + rest;
      SortedDistinct(list);
      assert list[0] !in rest;
      if Replaces(s, list[0]) {
        assert Upsert(list, s)[1..] == rest;
        forall y | y in rest
          ensures KeyOf(y) != KeyOf(s)
        {
          assert Precedes(list[0], y);
          PrecedesTotal(list[0], y);
        }
      } else {
        UpsertAny(rest, s, x);
        assert Upsert(list, s)[1..] == Upsert(rest, s);
        assert x in Upsert(list, s) <==> x == list[0] || x in Upsert(rest, s);
        assert KeyOf(list[0]) != KeyOf(s);
        LeaderLeast(rest, s);
        forall y | y in Upsert(rest, s)
          ensures KeyOf(y) != KeyOf(list[0])
        {
          UpsertFrom(rest, s, y);
        }
      }
    }
  }

  /** Whatever is reported, a sorted annotation stays one. */
  lemma {:induction false} PublishedSorted(base: seq<Entry>, reports: seq<Entry>, namespace: string)
    requires StrictlySorted(base) && InNamespace(base + reports, namespace)
    ensures StrictlySorted(Published(base, reports)) && InNamespace(Published(base, reports), namespace)
  {
    if reports != [] {
      var most, last := reports[..|reports| - 1], reports[|reports| - 1];
      assert reports == most + [last];
      assert forall e :: e in base + most ==> e in base + reports;
      assert last in base + reports;
      PublishedSorted(base, most, namespace);
      UpsertAny(Published(base, most), last, last);
      SortSorted(Upsert(Published(base, most), last));
      forall e | e in Published(base, reports)
        ensures e.namespace == namespace
      {
        PublishedFrom(base, reports, e);
      }
    }
  }

  lemma PublishedStep(base: seq<Entry>, most: seq<Entry>, last: Entry, x: Entry)
    requires StrictlySorted(base) && InNamespace(base + most, last.namespace)
    ensures x in Published(base, most + [last])
            <==> x == last || (x in Published(base, most) && !Displaces(Published(base, most), last, x))
  {
    assert (most + [last])[..|most|] == most;
    PublishedSorted(base, most, last.namespace);
    UpsertAny(Published(base, most), last, x);
    SortMembers(Upsert(Published(base, most), last), x);
  }

  /** An earlier entry of the same claim and interface comes before this report. */
  ghost predicate Shielded(base: seq<Entry>, b: Entry) {
    exists e :: e in base && SameSlot(e, b) && Less(e.pci, b.pci)
  }

  /** In this slot, a report without PCI address meets only shielded others. */
  ghost predicate SlotShielded(base: seq<Entry>, reports: seq<Entry>, slot: Entry) {
    forall a, b :: a in reports && b in reports && SameSlot(a, slot) && SameSlot(b, slot) && a.pci == "" && b.pci != "" ==> Shielded(base, b)
  }

  ghost predicate Displaced(base: seq<Entry>, reports: seq<Entry>, x: Entry) {
    exists a :: a in reports && a.pci == "" && SameSlot(a, x) && Leader(base, a) == Some(x)
  }

  ghost predicate Holds(base: seq<Entry>, reports: seq<Entry>, x: Entry) {
    x in reports || (x in base && NoKey(reports, KeyOf(x)) && !Displaced(base, reports, x))
  }

  /** A report without PCI address displaces the leader of the earlier annotation, whatever came before it. */
  lemma LeaderStays(base: seq<Entry>, most: seq<Entry>, s: Entry)
    requires StrictlySorted(base) && InNamespace(base + most, s.namespace) && s.pci == ""
    requires forall b :: b in most && SameSlot(b, s) ==> b.pci != "" && Shielded(base, b)
    requires forall x :: SameSlot(x, s) ==> (x in Published(base, most) <==> Holds(base, most, x))
    ensures Leader(Published(base, most), s) == Leader(base, s)
    ensures Leader(base, s).Some? ==> NoKey(most, KeyOf(Leader(base, s).value))
  {
    var now := Published(base, most);
    PublishedSorted(base, most, s.namespace);
    LeaderLeast(base, s);
    LeaderLeast(now, s);
    forall b | b in most && SameSlot(b, s)
      ensures Leader(base, s).Some? && Precedes(Leader(base, s).value, b)
    {
      var e :| e in base && SameSlot(e, b) && Less(e.pci, b.pci);
      var f := Leader(base, s).value;
      if e != f {
        PrecedesTransitive(f, e, b);
      }
    }
    if Leader(base, s).Some? {
      var f := Leader(base, s).value;
      forall b | b in most
        ensures KeyOf(b) != KeyOf(f)
      {
        assert b in base + most && f in base + most;
        PrecedesTotal(f, b);
      }
      assert Holds(base, most, f) && f in now;
      var g := Leader(now, s).value;
      assert Holds(base, most, g);
      PrecedesTotal(f, g);
    } else {
      assert forall x :: SameSlot(x, s) ==> !Holds(base, most, x);
    }
  }

  /** What the annotation holds of a slot, if its reports are shielded. */
  lemma {:induction false} SlotMembers(base: seq<Entry>, reports: seq<Entry>, namespace: string, x: Entry)
    requires StrictlySorted(base) && Distinct(reports) && InNamespace(base + reports, namespace)
    requires SlotShielded(base, reports, x)
    ensures x in Published(base, reports) <==> Holds(base, reports, x)
    decreases |reports|, 0
  {
    if reports != [] {
      var most, last := reports[..|reports| - 1], reports[|reports| - 1];
      assert reports == most + [last];
      assert (forall e :: e in base + most ==> e in base + reports) && last in base + reports;
      DistinctLast(reports);
      WholeSlot(base, most, namespace, x);
      SlotStep(base, most, last, x);
    }
  }

  lemma {:induction false} WholeSlot(base: seq<Entry>, reports: seq<Entry>, namespace: string, x: Entry)
    requires StrictlySorted(base) && Distinct(reports) && InNamespace(base + reports, namespace)
    requires SlotShielded(base, reports, x)
    ensures forall y :: SameSlot(y, x) ==> (y in Published(base, reports) <==> Holds(base, reports, y))
    decreases |reports|, 1
  {
    forall y | SameSlot(y, x)
      ensures y in Published(base, reports) <==> Holds(base, reports, y)
    {
      SlotMembers(base, reports, namespace, y);
    }
  }

  lemma SlotStep(base: seq<Entry>, most: seq<Entry>, last: Entry, x: Entry)
    requires StrictlySorted(base) && InNamespace(base + most, last.namespace) && NoKey(most, KeyOf(last))
    requires SlotShielded(base, most + [last], x)
    requires forall y :: SameSlot(y, x) ==> (y in Published(base, most) <==> Holds(base, most, y))
    ensures x in Published(base, most + [last]) <==> Holds(base, most + [last], x)
  {
    PublishedStep(base, most, last, x);
    assert SameSlot(x, x);
    if last.pci == "" && SameSlot(last, x) {
      forall b | b in most && SameSlot(b, last)
        ensures b.pci != "" && Shielded(base, b)
      {
        assert b in base + most && b in most + [last] && last in most + [last];
      }
      LeaderStays(base, most, last);
      BareStep(base, most, last, x);
    } else {
      PlainStep(base, most, last, x);
    }
  }

  lemma BareStep(base: seq<Entry>, most: seq<Entry>, last: Entry, x: Entry)
    requires NoKey(most, KeyOf(last)) && InNamespace(base + most, last.namespace) && StrictlySorted(base)
    requires last.pci == "" && SameSlot(last, x) && (Leader(base, last).Some? ==> NoKey(most, KeyOf(Leader(base, last).value)))
    ensures Holds(base, most + [last], x) <==> x == last || (Holds(base, most, x) && Leader(base, last) != Some(x))
  {
    LeaderLeast(base, last);
    assert forall a :: a in most + [last] <==> a in most || a == last;
    if x in base && x !in most && x != last {
      assert x in base + most;
      assert Displaced(base, most + [last], x) <==> Displaced(base, most, x) || Leader(base, last) == Some(x);
      if KeyOf(x) == KeyOf(last) {
        PrecedesTotal(Leader(base, last).value, x);
      }
    }
  }

  lemma {:induction false} LeaderOfSlot(list: seq<Entry>, s: Entry, t: Entry)
    requires SameSlot(s, t)
    ensures Leader(list, s) == Leader(list, t)
    ensures Leader(list, s).Some? ==> SameSlot(Leader(list, s).value, s)
  {
    if list != [] {
      LeaderOfSlot(list[1..], s, t);
    }
  }

  lemma PlainStep(base: seq<Entry>, most: seq<Entry>, last: Entry, x: Entry)
    requires NoKey(most, KeyOf(last)) && InNamespace(base + most, last.namespace) && StrictlySorted(base)
    requires last.pci != "" || !SameSlot(last, x)
    ensures Holds(base, most + [last], x)
            <==> x == last || (Holds(base, most, x) && !Displaces(Published(base, most), last, x))
  {
    LeaderOfSlot(Published(base, most), last, last);
    assert forall a :: a in most + [last] <==> a in most || a == last;
    assert x in base ==> x in base + most;
    assert Displaced(base, most + [last], x) <==> Displaced(base, most, x);
  }

  // ---------------------------------------------------------------- the exact condition

  /** Every order gives the same annotation. */
  ghost predicate OrderFree(base: seq<Entry>, reports: seq<Entry>) {
    forall order :: multiset(order) == multiset(reports) ==> Published(base, order) == Published(base, reports)
  }

  ghost predicate AllShielded(base: seq<Entry>, reports: seq<Entry>) {
    forall a, b :: a in reports && b in reports && SameSlot(a, b) && a.pci == "" && b.pci != "" ==> Shielded(base, b)
  }

  lemma ShieldedInSlot(base: seq<Entry>, s: seq<Entry>, t: seq<Entry>, x: Entry)
    requires AllShielded(base, s) && forall y :: y in t ==> y in s
    ensures SlotShielded(base, t, x)
  {
  }

  lemma ShieldedAgree(base: seq<Entry>, s: seq<Entry>, t: seq<Entry>, namespace: string)
    requires StrictlySorted(base) && Distinct(s) && multiset(s) == multiset(t) && InNamespace(base + s, namespace)
    requires AllShielded(base, s)
    ensures Published(base, s) == Published(base, t)
  {
    SameMembers(s, t);
    DistinctPermutes(s, t);
    assert forall x :: x in base + t ==> x in base + s;
    PublishedSorted(base, s, namespace);
    PublishedSorted(base, t, namespace);
    forall x
      ensures x in Published(base, s) <==> x in Published(base, t)
    {
      ShieldedInSlot(base, s, s, x);
      ShieldedInSlot(base, s, t, x);
      SlotMembers(base, s, namespace, x);
      SlotMembers(base, t, namespace, x);
      assert Holds(base, s, x) <==> Holds(base, t, x);
    }
    SortedUnique(Published(base, s), Published(base, t));
  }

  /** The least report with a PCI address in this slot. */
  lemma LeastReport(reports: seq<Entry>, b: Entry) returns (least: Entry)
    requires b in reports && b.pci != ""
    ensures least in reports && SameSlot(least, b) && least.pci != "" && (least == b || Precedes(least, b))
    ensures forall y :: y in reports && SameSlot(y, b) && y.pci != "" && KeyOf(y) != KeyOf(least) ==> Precedes(least, y)
  {
    least := b;
    for i := 0 to |reports|
      invariant least in reports && SameSlot(least, b) && least.pci != "" && (least == b || Precedes(least, b))
      invariant forall j :: 0 <= j < i && SameSlot(reports[j], b) && reports[j].pci != "" && KeyOf(reports[j]) != KeyOf(least) ==>
                  Precedes(least, reports[j])
    {
      var y := reports[i];
      PrecedesTotal(least, y);
      if SameSlot(y, b) && y.pci != "" && Precedes(y, least) {
        forall j | 0 <= j < i && SameSlot(reports[j], b) && reports[j].pci != "" && KeyOf(reports[j]) != KeyOf(y)
          ensures Precedes(y, reports[j])
        {
          if KeyOf(reports[j]) != KeyOf(least) {
            PrecedesTransitive(y, least, reports[j]);
          }
        }
        if least != b {
          PrecedesTransitive(y, least, b);
        }
        least := y;
      }
    }
  }

  function Removed(reports: seq<Entry>, i: nat): seq<Entry>
    requires i < |reports|
  {
    reports[..i] + reports[i + 1..]
  }

  lemma MovedLast(reports: seq<Entry>, x: Entry) returns (most: seq<Entry>)
    requires x in reports && Distinct(reports)
    ensures multiset(most + [x]) == multiset(reports) && Distinct(most + [x])
    ensures forall y :: y in most <==> y in reports && y != x
  {
    var i :| 0 <= i < |reports| && reports[i] == x;
    most := Removed(reports, i);
    assert reports == reports[..i] + [x] + reports[i + 1..];
    DistinctPermutes(reports, most + [x]);
    SameMembers(reports, most + [x]);
    assert (most + [x])[..|most|] == most;
    DistinctLast(most + [x]);
  }

  /** The least unshielded report is lost if the one without PCI address comes last, and is there if it comes last itself. */
  lemma UnshieldedMatters(base: seq<Entry>, reports: seq<Entry>, namespace: string, a: Entry, b: Entry)
    requires StrictlySorted(base) && Distinct(reports) && InNamespace(base + reports, namespace)
    requires a in reports && b in reports && SameSlot(a, b) && a.pci == "" && b.pci != "" && !Shielded(base, b)
    requires forall y :: y in reports && SameSlot(y, b) && y.pci != "" && KeyOf(y) != KeyOf(b) ==> Precedes(b, y)
    ensures !OrderFree(base, reports)
  {
    var most := MovedLast(reports, a);
    var rest := MovedLast(reports, b);
    assert forall e :: e in base + most || e in base + rest ==> e in base + reports;
    assert a in base + reports && b in base + reports;
    PublishedStep(base, rest, b, b);
    LostToBare(base, most, namespace, a, b);
    TwoOrders(base, reports, most + [a], rest + [b]);
  }

  lemma TwoOrders(base: seq<Entry>, reports: seq<Entry>, s: seq<Entry>, t: seq<Entry>)
    requires multiset(s) == multiset(reports) && multiset(t) == multiset(reports) && Published(base, s) != Published(base, t)
    ensures !OrderFree(base, reports)
  {
  }

  lemma LessShielded(base: seq<Entry>, least: Entry, b: Entry)
    requires SameSlot(least, b) && Precedes(least, b) && Shielded(base, least)
    ensures Shielded(base, b)
  {
    var e :| e in base && SameSlot(e, least) && Less(e.pci, least.pci);
    LessTransitive(e.pci, least.pci, b.pci);
  }

  lemma LostToBare(base: seq<Entry>, most: seq<Entry>, namespace: string, a: Entry, b: Entry)
    requires StrictlySorted(base) && Distinct(most + [a]) && InNamespace(base + most, namespace) && a.namespace == namespace
    requires b in most && SameSlot(a, b) && a.pci == "" && b.pci != "" && !Shielded(base, b)
    requires forall y :: y in most && SameSlot(y, b) && y.pci != "" && KeyOf(y) != KeyOf(b) ==> Precedes(b, y)
    ensures b !in Published(base, most + [a])
  {
    assert (most + [a])[..|most|] == most;
    DistinctLast(most + [a]);
    var now := Published(base, most);
    WholeSlot(base, most, namespace, b);
    PublishedSorted(base, most, namespace);
    LeaderLeast(now, a);
    assert SameSlot(b, b) && Holds(base, most, b) && b in now;
    LeastLeads(base, most, now, a, b);
    PublishedStep(base, most, a, b);
  }

  /** The least unshielded report is the leader of its slot. */
  lemma LeastLeads(base: seq<Entry>, most: seq<Entry>, now: seq<Entry>, a: Entry, b: Entry)
    requires StrictlySorted(now) && b in now && SameSlot(a, b) && b.pci != "" && !Shielded(base, b) && NoKey(most, KeyOf(a)) && a.pci == ""
    requires forall y :: SameSlot(y, b) && y in now ==> y in most || y in base
    requires forall y :: y in most && SameSlot(y, b) && y.pci != "" && KeyOf(y) != KeyOf(b) ==> Precedes(b, y)
    ensures Leader(now, a) == Some(b)
  {
    LeaderLeast(now, a);
    var g := Leader(now, a).value;
    PrecedesTotal(g, b);
    assert SameSlot(g, b) && (g in most || g in base);
    assert g != b ==> Precedes(g, b) && Less(g.pci, b.pci);
    assert g in base && Less(g.pci, b.pci) ==> Shielded(base, b);
    assert g in most ==> g.pci != "" && (KeyOf(g) != KeyOf(b) ==> Precedes(b, g));
  }

  /** The order is irrelevant exactly when each report that shares claim and interface with one without PCI
      address comes after an earlier entry for them. The earlier annotation may be any that was published before. */
  lemma OrderFreeExactly(base: seq<Entry>, reports: seq<Entry>)
    requires StrictlySorted(base) && Distinct(reports) && OneNamespace(base + reports)
    ensures OrderFree(base, reports) <==> AllShielded(base, reports)
  {
    var namespace := if reports == [] then "" else reports[0].namespace;
    if reports != [] {
      assert reports[0] in base + reports;
      if AllShielded(base, reports) {
        forall order | multiset(order) == multiset(reports)
          ensures Published(base, order) == Published(base, reports)
        {
          ShieldedAgree(base, reports, order, namespace);
        }
      } else {
        var a, b :| a in reports && b in reports && SameSlot(a, b) && a.pci == "" && b.pci != "" && !Shielded(base, b);
        var least := LeastReport(reports, b);
        if least != b && Shielded(base, least) {
          LessShielded(base, least, b);
        }
        UnshieldedMatters(base, reports, namespace, a, least);
      }
    } else {
      forall order | multiset(order) == multiset(reports)
        ensures Published(base, order) == Published(base, reports)
      {
        assert |multiset(order)| == |multiset(reports)|;
      }
    }
  }

  // ---------------------------------------------------------------- reporting a pod's devices

  ghost predicate DevicesApart(devices: map<string, Entry>) {
    forall k, l :: k in devices && l in devices && KeyOf(devices[k]) == KeyOf(devices[l]) ==> k == l
  }

  /** These are the devices' reports in some order, in harmony with the earlier annotation. */
  ghost predicate Arranges(base: seq<Entry>, devices: map<string, Entry>, reports: seq<Entry>) {
    && Distinct(reports) && (forall x :: x in reports <==> x in devices.Values)
    && Harmonious(base + reports) && OneNamespace(base + reports)
  }

  lemma {:induction false} DistinctAppend(list: seq<Entry>, x: Entry)
    requires Distinct(list) && NoKey(list, KeyOf(x))
    ensures Distinct(list + [x])
  {
    if list == [] {
      assert (list + [x])[1..] == [];
    } else {
      DistinctAppend(list[1..], x);
      assert (list + [x])[1..] == list[1..] + [x];
      assert list[0] in list;
    }
  }

  /** The loop of RunPodSandbox over a pod's devices, in whatever order the map yields them: any other
      order of the same reports gives the same annotation. */
  method ReportDevices(base: seq<Entry>, devices: map<string, Entry>) returns (published: seq<Entry>, ghost order: seq<Entry>)
    ensures published == Published(base, order)
    ensures forall x :: x in order <==> x in devices.Values
    ensures DevicesApart(devices) && Distinct(base) ==> forall other :: Arranges(base, devices, other) ==> published == Published(base, other)
  {
    published, order := base, [];
    var left := devices.Keys;
    while left != {}
      invariant left <= devices.Keys
      invariant published == Published(base, order) && (DevicesApart(devices) ==> Distinct(order))
      invariant forall x :: x in order <==> exists k :: k in devices && k !in left && devices[k] == x
      decreases left
    {
      var k :| k in left;
      var merged := MergeStatus(published, devices[k]);
      assert (order + [devices[k]])[..|order|] == order;
      if DevicesApart(devices) {
        DistinctAppend(order, devices[k]);
      }
      published := Sort(merged);
      order := order + [devices[k]];
      left := left - {k};
    }
    if DevicesApart(devices) && Distinct(base) {
      forall other | Arranges(base, devices, other)
        ensures published == Published(base, other)
      {
        ReportsDetermine(base, other, order);
      }
    }
  }
}
