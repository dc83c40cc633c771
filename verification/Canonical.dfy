/** The canonical text behind request_hash: json.dumps(payload, sort_keys=True, separators=(",", ":")). */
module Canonical {
  import opened Basics
  import opened Json

  /** What a JSON value means when the order of object members does not matter. */
  datatype Meaning =
    | MNull
    | MBool(b: bool)
    | MInt(n: int)
    | MStr(s: string)
    | MArr(items: seq<Meaning>)
    | MObj(members: map<string, Meaning>)

  function MeaningOf(j: Json): Meaning
    decreases j, 1
  {
    match j
    case Null => MNull
    case Bool(b) => MBool(b)
    case Int(n) => MInt(n)
    case Str(s) => MStr(s)
    case Arr(items) => MArr(ItemMeanings(items))
    case Obj(ms) => MObj(MemberMeanings(ms))
  }

  function ItemMeanings(items: seq<Json>): seq<Meaning>
    decreases items, 0
  {
    if |items| == 0 then [] else [MeaningOf(items[0])] + ItemMeanings(items[1..])
  }

  function MemberMeanings(ms: seq<Member>): map<string, Meaning>
    decreases ms, 0
  {
    if |ms| == 0 then map[] else map[ms[0].key := MeaningOf(ms[0].value)] + MemberMeanings(ms[1..])
  }

  predicate MemberLess(a: Member, b: Member) {
    StrLess(a.key, b.key)
  }

  function SortKeys(j: Json): Json
    decreases j, 1
  {
    match j
    case Arr(items) => Arr(SortItemKeys(items))
    case Obj(ms) => Obj(Sort(SortMemberKeys(ms), MemberLess))
    case _ => j
  }

  function SortItemKeys(items: seq<Json>): seq<Json>
    decreases items, 0
  {
    if |items| == 0 then [] else [SortKeys(items[0])] + SortItemKeys(items[1..])
  }

  function SortMemberKeys(ms: seq<Member>): seq<Member>
    decreases ms, 0
  {
    if |ms| == 0 then [] else [Member(ms[0].key, SortKeys(ms[0].value))] + SortMemberKeys(ms[1..])
  }

  function CanonicalText(j: Json): string {
    Dump(SortKeys(j))
  }

  // ---- Element-wise views of the recursive definitions ----

  lemma {:induction false} ItemMeaningsAt(items: seq<Json>)
    ensures |ItemMeanings(items)| == |items|
    ensures forall k :: 0 <= k < |items| ==> ItemMeanings(items)[k] == MeaningOf(items[k])
  {
    if |items| == 0 {
    } else {
      ItemMeaningsAt(items[1..]);
    }
  }

  lemma {:induction false} SortItemKeysAt(items: seq<Json>)
    ensures |SortItemKeys(items)| == |items|
    ensures forall k :: 0 <= k < |items| ==> SortItemKeys(items)[k] == SortKeys(items[k])
  {
    if |items| == 0 {
    } else {
      SortItemKeysAt(items[1..]);
    }
  }

  lemma {:induction false} SortMemberKeysAt(ms: seq<Member>)
    ensures |SortMemberKeys(ms)| == |ms|
    ensures forall k :: 0 <= k < |ms| ==> SortMemberKeys(ms)[k] == Member(ms[k].key, SortKeys(ms[k].value))
  {
    if |ms| == 0 {
    } else {
      SortMemberKeysAt(ms[1..]);
    }
  }

  lemma {:induction false} MeaningKeys(ms: seq<Member>)
    ensures forall k :: k in MemberMeanings(ms) <==> exists i :: 0 <= i < |ms| && ms[i].key == k
  {
    if |ms| == 0 {
    } else {
      var tail := ms[1..];
      MeaningKeys(tail);
      forall k | k in MemberMeanings(ms) ensures exists i :: 0 <= i < |ms| && ms[i].key == k {
        if k == ms[0].key {
          assert ms[0].key == k;
        } else {
          assert k in MemberMeanings(tail);
          var i :| 0 <= i < |tail| && tail[i].key == k;
          assert ms[i + 1].key == k;
        }
      }
      forall i | 0 <= i < |ms| ensures ms[i].key in MemberMeanings(ms) {
        assert i > 0 ==> tail[i - 1].key == ms[i].key;
      }
    }
  }

  lemma HeadKeyOnce(ms: seq<Member>)
    requires |ms| > 0 && DistinctKeys(ms)
    ensures DistinctKeys(ms[1..]) && ms[0].key !in MemberMeanings(ms[1..])
  {
    MeaningKeys(ms[1..]);
    assert forall i :: 0 <= i < |ms[1..]| ==> ms[1..][i] == ms[i + 1];
  }

  /** With distinct keys the meaning of an object holds each of its members. */
  lemma {:induction false} MemberMeaningsAt(ms: seq<Member>)
    requires DistinctKeys(ms)
    ensures forall m :: m in ms ==> m.key in MemberMeanings(ms) && MemberMeanings(ms)[m.key] == MeaningOf(m.value)
  {
    if |ms| == 0 {
    } else {
      var head, tail := ms[0], ms[1..];
      HeadKeyOnce(ms);
      MemberMeaningsAt(tail);
      forall m | m in ms ensures m.key in MemberMeanings(ms) && MemberMeanings(ms)[m.key] == MeaningOf(m.value) {
        assert ms == [head] + tail;
        assert m == head || m in tail;
      }
    }
  }

  // ---- Sorting keeps the meaning ----

  lemma MemberOrder()
    ensures Asymmetric(MemberLess) && Transitive(MemberLess)
  {
    forall a: Member, b: Member ensures MemberLess(a, b) ==> !MemberLess(b, a) {
      StrLessTotal(a.key, b.key);
    }
    forall a: Member, b: Member, c: Member | MemberLess(a, b) && MemberLess(b, c) ensures MemberLess(a, c) {
      StrLessTransitive(a.key, b.key, c.key);
    }
  }

  lemma DistinctKeysComparable(ms: seq<Member>)
    requires DistinctKeys(ms)
    ensures Comparable(ms, MemberLess)
  {
    forall i, j | 0 <= i < j < |ms| ensures MemberLess(ms[i], ms[j]) || MemberLess(ms[j], ms[i]) {
      StrLessTotal(ms[i].key, ms[j].key);
    }
  }

  lemma SortedKeysDistinct(ms: seq<Member>)
    requires StrictlySorted(ms, MemberLess)
    ensures DistinctKeys(ms)
  {
    forall i, j | 0 <= i < j < |ms| ensures ms[i].key != ms[j].key {
      assert MemberLess(ms[i], ms[j]);
      StrLessTotal(ms[i].key, ms[j].key);
    }
  }

  lemma MappedMembers(ms: seq<Member>)
    ensures forall m :: m in ms ==> Member(m.key, SortKeys(m.value)) in SortMemberKeys(ms)
    ensures forall x :: x in SortMemberKeys(ms) ==> exists m :: m in ms && x == Member(m.key, SortKeys(m.value))
  {
    var mapped := SortMemberKeys(ms);
    SortMemberKeysAt(ms);
    forall m | m in ms ensures Member(m.key, SortKeys(m.value)) in mapped {
      var k :| 0 <= k < |ms| && ms[k] == m;
      assert mapped[k] in mapped;
    }
    forall x | x in mapped ensures exists m :: m in ms && x == Member(m.key, SortKeys(m.value)) {
      var k :| 0 <= k < |mapped| && mapped[k] == x;
      assert ms[k] in ms;
    }
  }

  /** The members of a sorted object: the same keys, strictly increasing, each with its value sorted. */
  lemma SortedMembers(ms: seq<Member>)
    requires DistinctKeys(ms)
    ensures var r := Sort(SortMemberKeys(ms), MemberLess);
            && StrictlySorted(r, MemberLess) && DistinctKeys(r)
            && (forall m :: m in ms ==> Member(m.key, SortKeys(m.value)) in r)
            && (forall x :: x in r ==> exists m :: m in ms && x == Member(m.key, SortKeys(m.value)))
  {
    var mapped := SortMemberKeys(ms);
    SortMemberKeysAt(ms);
    MemberOrder();
    DistinctKeysComparable(mapped);
    SortSorted(mapped, MemberLess);
    SortElements(mapped, MemberLess);
    SortedKeysDistinct(Sort(mapped, MemberLess));
    MappedMembers(ms);
  }

  lemma MeaningsCarryOver(ms: seq<Member>, r: seq<Member>)
    requires DistinctKeys(ms) && DistinctKeys(r)
    requires forall m :: m in ms ==> Member(m.key, SortKeys(m.value)) in r
    requires forall m :: m in ms ==> MeaningOf(SortKeys(m.value)) == MeaningOf(m.value)
    ensures forall k :: k in MemberMeanings(ms) ==>
              k in MemberMeanings(r) && MemberMeanings(r)[k] == MemberMeanings(ms)[k]
  {
    MemberMeaningsAt(ms);
    MemberMeaningsAt(r);
    MeaningKeys(ms);
    forall k | k in MemberMeanings(ms)
      ensures k in MemberMeanings(r) && MemberMeanings(r)[k] == MemberMeanings(ms)[k]
    {
      var i :| 0 <= i < |ms| && ms[i].key == k;
      var m := ms[i];
      var x := Member(m.key, SortKeys(m.value));
      assert x in r && x.key == k;
    }
  }

  lemma MeaningsAddNothing(ms: seq<Member>, r: seq<Member>)
    requires DistinctKeys(ms) && DistinctKeys(r)
    requires forall x :: x in r ==> exists m :: m in ms && x == Member(m.key, SortKeys(m.value))
    ensures MemberMeanings(r).Keys <= MemberMeanings(ms).Keys
  {
    MeaningKeys(r);
    MemberMeaningsAt(ms);
    forall k | k in MemberMeanings(r) ensures k in MemberMeanings(ms) {
      var i :| 0 <= i < |r| && r[i].key == k;
      var x := r[i];
      assert x in r;
      var m :| m in ms && x == Member(m.key, SortKeys(m.value));
      assert m.key == k;
    }
  }

  lemma SameMap(a: map<string, Meaning>, b: map<string, Meaning>)
    requires b.Keys <= a.Keys && forall k :: k in a ==> k in b && b[k] == a[k]
    ensures a == b
  {
  }

  lemma SameMemberMeanings(ms: seq<Member>)
    requires DistinctKeys(ms)
    requires forall m :: m in ms ==> MeaningOf(SortKeys(m.value)) == MeaningOf(m.value)
    ensures MemberMeanings(Sort(SortMemberKeys(ms), MemberLess)) == MemberMeanings(ms)
  {
    var r := Sort(SortMemberKeys(ms), MemberLess);
    SortedMembers(ms);
    MeaningsCarryOver(ms, r);
    MeaningsAddNothing(ms, r);
    SameMap(MemberMeanings(ms), MemberMeanings(r));
  }

  lemma {:induction false} SortKeysKeepsMeaning(j: Json)
    requires WellKeyed(j)
    ensures WellKeyed(SortKeys(j)) && MeaningOf(SortKeys(j)) == MeaningOf(j)
    decreases j
  {
    match j
    case Arr(items) =>
      SortItemKeysAt(items);
      ItemMeaningsAt(items);
      ItemMeaningsAt(SortItemKeys(items));
      forall k | 0 <= k < |items|
        ensures WellKeyed(SortItemKeys(items)[k])
        ensures MeaningOf(SortItemKeys(items)[k]) == MeaningOf(items[k])
      {
        SortKeysKeepsMeaning(items[k]);
      }
      assert ItemMeanings(SortItemKeys(items)) == ItemMeanings(items);
    case Obj(ms) =>
      SortedMembers(ms);
      forall m | m in ms
        ensures WellKeyed(SortKeys(m.value)) && MeaningOf(SortKeys(m.value)) == MeaningOf(m.value)
      {
        SortKeysKeepsMeaning(m.value);
      }
      SameMemberMeanings(ms);
    case _ =>
  }

  /** In every object of the value the keys ascend by code points. */
  ghost predicate KeysAscend(j: Json) {
    match j
    case Arr(items) => forall x :: x in items ==> KeysAscend(x)
    case Obj(ms) =>
      && (forall i, k :: 0 <= i < k < |ms| ==> CodePointsBefore(ms[i].key, ms[k].key))
      && (forall m :: m in ms ==> KeysAscend(m.value))
    case _ => true
  }

  /** sort_keys=True: the sorted form has ascending keys at every level. */
  lemma {:induction false} SortKeysAscends(j: Json)
    requires WellKeyed(j)
    ensures KeysAscend(SortKeys(j))
    decreases j
  {
    match j
    case Arr(items) =>
      SortItemKeysAt(items);
      forall k | 0 <= k < |items| ensures KeysAscend(SortItemKeys(items)[k]) {
        SortKeysAscends(items[k]);
      }
    case Obj(ms) =>
      var r := Sort(SortMemberKeys(ms), MemberLess);
      SortedMembers(ms);
      forall i, k | 0 <= i < k < |r| ensures CodePointsBefore(r[i].key, r[k].key) {
        assert MemberLess(r[i], r[k]);
        StrLessIff(r[i].key, r[k].key);
      }
      forall x | x in r ensures KeysAscend(x.value) {
        var m :| m in ms && x == Member(m.key, SortKeys(m.value));
        SortKeysAscends(m.value);
      }
    case _ =>
  }

  // ---- The meaning determines the sorted form ----

  lemma SortedMembersSubset(ms: seq<Member>, ns: seq<Member>)
    requires DistinctKeys(ms) && DistinctKeys(ns) && MemberMeanings(ms) == MemberMeanings(ns)
    requires forall m, n :: m in ms && n in ns && m.key == n.key ==> SortKeys(m.value) == SortKeys(n.value)
    ensures forall x :: x in Sort(SortMemberKeys(ms), MemberLess) ==> x in Sort(SortMemberKeys(ns), MemberLess)
  {
    SortedMembers(ms);
    SortedMembers(ns);
    MemberMeaningsAt(ms);
    MeaningKeys(ns);
    forall x | x in Sort(SortMemberKeys(ms), MemberLess) ensures x in Sort(SortMemberKeys(ns), MemberLess) {
      var m :| m in ms && x == Member(m.key, SortKeys(m.value));
      assert m.key in MemberMeanings(ns);
      var i :| 0 <= i < |ns| && ns[i].key == m.key;
      var n := ns[i];
      assert x == Member(n.key, SortKeys(n.value));
    }
  }

  lemma {:induction false} SortedFormUnique(a: Json, b: Json)
    requires WellKeyed(a) && WellKeyed(b) && MeaningOf(a) == MeaningOf(b)
    ensures SortKeys(a) == SortKeys(b)
    decreases a
  {
    match a
    case Arr(items) =>
      SortItemKeysAt(items);
      SortItemKeysAt(b.items);
      ItemMeaningsAt(items);
      ItemMeaningsAt(b.items);
      assert |items| == |ItemMeanings(items)| == |b.items|;
      forall k | 0 <= k < |items| ensures SortItemKeys(items)[k] == SortItemKeys(b.items)[k] {
        SortedFormUnique(items[k], b.items[k]);
      }
      assert SortItemKeys(items) == SortItemKeys(b.items);
    case Obj(ms) =>
      assert MemberMeanings(ms) == MemberMeanings(b.members);
      forall m, n | m in ms && n in b.members && m.key == n.key
        ensures SortKeys(m.value) == SortKeys(n.value)
      {
        MemberMeaningsAt(ms);
        MemberMeaningsAt(b.members);
        SortedFormUnique(m.value, n.value);
      }
      SortedMembersSubset(ms, b.members);
      SortedMembersSubset(b.members, ms);
      SortedMembers(ms);
      SortedMembers(b.members);
      MemberOrder();
      SortedListingUnique(
        Sort(SortMemberKeys(ms), MemberLess), Sort(SortMemberKeys(b.members), MemberLess), MemberLess);
    case _ =>
  }

  /** Two payloads have the same canonical text exactly when they are equal as nested maps. */
  lemma CanonicalTextIffSameMeaning(a: Json, b: Json)
    requires WellKeyed(a) && WellKeyed(b)
    ensures CanonicalText(a) == CanonicalText(b) <==> MeaningOf(a) == MeaningOf(b)
  {
    SortKeysKeepsMeaning(a);
    SortKeysKeepsMeaning(b);
    DumpInjective(SortKeys(a), SortKeys(b));
    if MeaningOf(a) == MeaningOf(b) {
      SortedFormUnique(a, b);
    }
  }

  lemma ScalarsSorted(ms: seq<Member>)
    requires forall m :: m in ms ==> !m.value.Arr? && !m.value.Obj?
    ensures SortMemberKeys(ms) == ms
  {
    SortMemberKeysAt(ms);
    forall k | 0 <= k < |ms| ensures SortKeys(ms[k].value) == ms[k].value {
      assert ms[k] in ms;
    }
  }

  /** A listing of the members with ascending keys is the sorted one. */
  lemma SortedByListing(ms: seq<Member>, sorted: seq<Member>)
    requires DistinctKeys(ms) && forall m :: m in ms ==> !m.value.Arr? && !m.value.Obj?
    requires forall m :: m in ms <==> m in sorted
    requires forall i, j :: 0 <= i < j < |sorted| ==> CodePointsBefore(sorted[i].key, sorted[j].key)
    ensures CanonicalText(Obj(ms)) == Dump(Obj(sorted))
  {
    ScalarsSorted(ms);
    SortedMembers(ms);
    SortElements(ms, MemberLess);
    MemberOrder();
    forall i, j | 0 <= i < j < |sorted| ensures MemberLess(sorted[i], sorted[j]) {
      StrLessIff(sorted[i].key, sorted[j].key);
    }
    SortedListingUnique(Sort(ms, MemberLess), sorted, MemberLess);
  }

  // ---- The text is printable ASCII, so encoding it as UTF-8 changes nothing ----

  predicate Printable(s: string) {
    forall c :: c in s ==> 0x20 <= c as int <= 0x7e
  }

  lemma {:induction false} EscapePrintable(s: string)
    ensures Printable(Quote(s))
  {
    if |s| == 0 {
    } else {
      EscapeCharShape(s[0]);
      EscapePrintable(s[1..]);
      assert forall c :: c in Escape(s[1..]) ==> c in Quote(s[1..]);
    }
  }

  lemma {:induction false} DumpPrintable(j: Json)
    ensures Printable(Dump(j))
    decreases j, 1
  {
    match j
    case Int(n) =>
      NatTextDigits(if n < 0 then -n else n);
    case Str(s) => EscapePrintable(s);
    case Arr(items) => if |items| > 0 { DumpItemsPrintable(items); }
    case Obj(ms) => if |ms| > 0 { DumpMembersPrintable(ms); }
    case _ =>
  }

  lemma {:induction false} DumpItemsPrintable(items: seq<Json>)
    requires |items| > 0
    ensures Printable(DumpItems(items))
    decreases items, 0
  {
    DumpPrintable(items[0]);
    if |items| > 1 { DumpItemsPrintable(items[1..]); }
  }

  lemma {:induction false} DumpMembersPrintable(ms: seq<Member>)
    requires |ms| > 0
    ensures Printable(DumpMembers(ms))
    decreases ms, 0
  {
    EscapePrintable(ms[0].key);
    DumpPrintable(ms[0].value);
    if |ms| > 1 { DumpMembersPrintable(ms[1..]); }
  }
}
