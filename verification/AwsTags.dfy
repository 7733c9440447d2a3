/**
 The "name" tag of an AWS resource, looked up by binary search (VPCs, subnets, servers,
 volumes) and by a linear scan (public addresses).
 */
module AwsTags {
  datatype Tag = Tag(key: string, value: string)

  predicate IsName(tag: Tag) {
    tag.key == "name"
  }

  /** The answer of `sort.Search` between `i` and `j` for the test on keys. */
  function SearchBetween(tags: seq<Tag>, i: nat, j: nat): (k: nat)
    requires i <= j <= |tags|
    ensures i <= k <= j
    decreases j - i
  {
    if i == j then i
    else
      var h := (i + j) / 2;
      if IsName(tags[h]) then SearchBetween(tags, i, h) else SearchBetween(tags, h + 1, j)
  }

  /** `sort.Search` over the tags. */
  method Search(tags: seq<Tag>) returns (k: nat)
    ensures k == SearchBetween(tags, 0, |tags|)
  {
    var i, j := 0, |tags|;
    while i < j
      invariant i <= j <= |tags|
      invariant SearchBetween(tags, i, j) == SearchBetween(tags, 0, |tags|)
    {
      var h := (i + j) / 2;
      if !IsName(tags[h]) {
        i := h + 1;
      } else {
        j := h;
      }
    }
    return i;
  }

  function ValueAt(tags: seq<Tag>, k: nat): string {
    if k < |tags| then tags[k].value else ""
  }

  /** `name` of volumes, and the same code in `network`, `subnet` and `server`. */
  method Name(tags: seq<Tag>) returns (name: string)
    ensures name == ValueAt(tags, SearchBetween(tags, 0, |tags|))
  {
    var i := Search(tags);
    if i < |tags| {
      return tags[i].value;
    }
    return "";
  }

  /** The first "name" tag, or the end of the list. */
  function FirstName(tags: seq<Tag>): (k: nat)
    ensures k <= |tags|
    ensures forall i :: 0 <= i < k ==> !IsName(tags[i])
    ensures k < |tags| ==> IsName(tags[k])
  {
    if tags == [] || IsName(tags[0]) then 0 else 1 + FirstName(tags[1..])
  }

  /** The scan of `toPublicIP`. */
  method NameByScan(tags: seq<Tag>) returns (name: string)
    ensures name == ValueAt(tags, FirstName(tags))
  {
    name := "";
    for i := 0 to |tags|
      invariant name == "" && FirstName(tags) == i + FirstName(tags[i..])
    {
      if IsName(tags[i]) {
        return tags[i].value;
      }
    }
  }

  /** Wherever the search ends short of its right end, it has found a "name" tag. */
  lemma {:induction false} SearchStopsAtName(tags: seq<Tag>, i: nat, j: nat)
    requires i <= j <= |tags|
    ensures var k := SearchBetween(tags, i, j); k == j || IsName(tags[k])
    decreases j - i
  {
    if i < j {
      var h := (i + j) / 2;
      if IsName(tags[h]) {
        SearchStopsAtName(tags, i, h);
      } else {
        SearchStopsAtName(tags, h + 1, j);
      }
    }
  }

  /** Sound on every list: the result is empty or the value of a "name" tag. */
  lemma SearchIsSound(tags: seq<Tag>)
    ensures var name := ValueAt(tags, SearchBetween(tags, 0, |tags|));
            name == "" || exists tag :: tag in tags && tag.key == "name" && tag.value == name
    ensures (forall tag :: tag in tags ==> tag.key != "name") ==> ValueAt(tags, SearchBetween(tags, 0, |tags|)) == ""
  {
    SearchStopsAtName(tags, 0, |tags|);
    var k := SearchBetween(tags, 0, |tags|);
    if k < |tags| {
      assert tags[k] in tags;
    }
  }

  /** The scan gives the value of the first "name" tag, or nothing if there is none. */
  lemma ScanIsFirst(tags: seq<Tag>)
    ensures var name := ValueAt(tags, FirstName(tags));
            || (name == "" && forall tag :: tag in tags ==> tag.key != "name")
            || exists i :: 0 <= i < |tags| && tags[i].key == "name" && tags[i].value == name
                           && forall j :: 0 <= j < i ==> tags[j].key != "name"
  {
    var k := FirstName(tags);
    if k < |tags| {
      assert forall j :: 0 <= j < k ==> !IsName(tags[j]);
    } else {
      assert forall j :: 0 <= j < |tags| ==> !IsName(tags[j]);
    }
  }

  /** Nothing but "name" tags from the first one on. */
  predicate NamesLast(tags: seq<Tag>) {
    forall i :: FirstName(tags) <= i < |tags| ==> IsName(tags[i])
  }

  lemma {:induction false} SearchFindsFirst(tags: seq<Tag>, i: nat, j: nat)
    requires NamesLast(tags)
    requires i <= FirstName(tags) <= j <= |tags|
    ensures SearchBetween(tags, i, j) == FirstName(tags)
    decreases j - i
  {
    if i < j {
      var h := (i + j) / 2;
      if IsName(tags[h]) {
        SearchFindsFirst(tags, i, h);
      } else {
        SearchFindsFirst(tags, h + 1, j);
      }
    }
  }

  /** The two lookups agree when the "name" tags come last or are absent. */
  lemma LookupsAgreeOnSuffix(tags: seq<Tag>)
    requires NamesLast(tags)
    ensures SearchBetween(tags, 0, |tags|) == FirstName(tags)
  {
    SearchFindsFirst(tags, 0, |tags|);
  }

  /** No key occurs twice, as EC2 guarantees for the tags of one resource. */
  predicate UniqueKeys(tags: seq<Tag>) {
    forall i, j :: 0 <= i < j < |tags| ==> tags[i].key != tags[j].key
  }

  /** The positions between `i` and `j` that a search meets as long as it finds nothing. */
  predicate OnPath(i: nat, j: nat, m: nat)
    requires i <= j
    decreases j - i
  {
    i < j && var h := (i + j) / 2; m == h || (m > h && OnPath(h + 1, j, m))
  }

  /** `e` halved `k` times, rounding down. */
  function Halved(e: nat, k: nat): nat {
    if k == 0 then e else Halved(e / 2, k - 1)
  }

  /** Position `m` of `n` is as far from the end as the upper half of `n`, halved some times more. */
  ghost predicate Probed(n: nat, m: nat) {
    m < n && IsHalved((n + 1) / 2, n - m)
  }

  ghost predicate IsHalved(e: nat, d: nat) {
    exists k: nat :: Halved(e, k) == d
  }

  lemma {:induction false} HalvedAtMost(e: nat, k: nat)
    ensures Halved(e, k) <= e
  {
    if k > 0 {
      HalvedAtMost(e / 2, k - 1);
    }
  }

  /** The distances of the path's positions from the end are the halves of the first one. */
  lemma {:induction false} PathIsHalved(i: nat, j: nat, m: nat, k: nat)
    requires i <= m < j
    requires Halved((j - i + 1) / 2, k) == j - m
    ensures OnPath(i, j, m)
    decreases k
  {
    var h := (i + j) / 2;
    assert j - h == (j - i + 1) / 2;
    HalvedAtMost(j - h, k);
    if m > h {
      assert (j - (h + 1) + 1) / 2 == (j - h) / 2;
      PathIsHalved(h + 1, j, m, k - 1);
    }
  }

  lemma {:induction false} HalvedIsPath(i: nat, j: nat, m: nat) returns (k: nat)
    requires i <= j && OnPath(i, j, m)
    ensures i <= m < j && Halved((j - i + 1) / 2, k) == j - m
    decreases j - i
  {
    var h := (i + j) / 2;
    assert j - h == (j - i + 1) / 2;
    if m == h {
      k := 0;
    } else {
      assert (j - (h + 1) + 1) / 2 == (j - h) / 2;
      var k' := HalvedIsPath(h + 1, j, m);
      k := k' + 1;
    }
  }

  lemma PathIsProbed(n: nat, m: nat)
    ensures OnPath(0, n, m) <==> Probed(n, m)
  {
    if OnPath(0, n, m) {
      var k := HalvedIsPath(0, n, m);
    }
    if Probed(n, m) {
      var k: nat :| Halved((n + 1) / 2, k) == n - m;
      PathIsHalved(0, n, m, k);
    }
  }

  lemma {:induction false} SearchAfterTheName(tags: seq<Tag>, i: nat, j: nat)
    requires i <= j <= |tags|
    requires forall k :: i <= k < j ==> !IsName(tags[k])
    ensures SearchBetween(tags, i, j) == j
    decreases j - i
  {
    if i < j {
      SearchAfterTheName(tags, (i + j) / 2 + 1, j);
    }
  }

  lemma {:induction false} SearchForSingle(tags: seq<Tag>, i: nat, j: nat, m: nat)
    requires i <= m < j <= |tags|
    requires forall k :: i <= k < j ==> (IsName(tags[k]) <==> k == m)
    ensures SearchBetween(tags, i, j) == if OnPath(i, j, m) then m else j
    decreases j - i
  {
    var h := (i + j) / 2;
    if m < h {
      SearchAfterTheName(tags, h + 1, j);
    } else if m == h {
      SearchAfterTheName(tags, i, h);
    } else {
      SearchForSingle(tags, h + 1, j, m);
    }
  }

  /**
   On the tags of one resource, in any order, the binary search finds the "name" tag exactly
   when the tag's distance from the end is half the length, rounded up, or a half, a quarter
   and so on of that, rounded down; otherwise it finds nothing.
   */
  lemma LookupIsExact(tags: seq<Tag>)
    requires UniqueKeys(tags)
    ensures var m, k := FirstName(tags), SearchBetween(tags, 0, |tags|);
            && (k == m <==> m == |tags| || Probed(|tags|, m))
            && (k != m ==> k == |tags|)
  {
    var m := FirstName(tags);
    if m < |tags| {
      SearchForSingle(tags, 0, |tags|, m);
      PathIsProbed(|tags|, m);
    } else {
      SearchAfterTheName(tags, 0, |tags|);
    }
  }

  /** The same in values: which "name" the search gives to a resource that has one. */
  lemma NameIsFound(tags: seq<Tag>, m: nat)
    requires UniqueKeys(tags)
    requires m < |tags| && tags[m].key == "name"
    ensures Probed(|tags|, m) ==> ValueAt(tags, SearchBetween(tags, 0, |tags|)) == tags[m].value
    ensures !Probed(|tags|, m) ==> ValueAt(tags, SearchBetween(tags, 0, |tags|)) == ""
  {
    OnlyName(tags, m);
    LookupIsExact(tags);
  }

  lemma OnlyName(tags: seq<Tag>, m: nat)
    requires UniqueKeys(tags)
    requires m < |tags| && tags[m].key == "name"
    ensures FirstName(tags) == m
  {
  }

  lemma {:induction false} SearchMeetsPath(tags: seq<Tag>, i: nat, j: nat)
    requires i <= j <= |tags|
    ensures SearchBetween(tags, i, j) < j <==> exists m :: i <= m < j && OnPath(i, j, m) && IsName(tags[m])
    decreases j - i
  {
    if i < j {
      var h := (i + j) / 2;
      if IsName(tags[h]) {
        assert OnPath(i, j, h);
      } else {
        SearchMeetsPath(tags, h + 1, j);
        forall m | i <= m < j
          ensures OnPath(i, j, m) && IsName(tags[m]) <==> h + 1 <= m && OnPath(h + 1, j, m) && IsName(tags[m])
        {
        }
      }
    }
  }

  /** On every list, also with a key more than once: which lists the search finds something in. */
  lemma LookupFinds(tags: seq<Tag>)
    ensures SearchBetween(tags, 0, |tags|) < |tags|
            <==> exists m: nat :: Probed(|tags|, m) && IsName(tags[m])
  {
    SearchMeetsPath(tags, 0, |tags|);
    forall m: nat
      ensures OnPath(0, |tags|, m) <==> Probed(|tags|, m)
    {
      PathIsProbed(|tags|, m);
    }
  }

  /** Every search path leaves out the first half of the list. */
  lemma FirstHalfIsMissed(n: nat, m: nat)
    requires m < n / 2
    ensures !Probed(n, m)
  {
    if Probed(n, m) {
      var k: nat :| Halved((n + 1) / 2, k) == n - m;
      HalvedAtMost((n + 1) / 2, k);
      assert false;
    }
  }

  /** Of two tags, a "name" that comes first is not found. */
  lemma NameIsMissed(value: string, other: Tag)
    requires !IsName(other)
    ensures var tags := [Tag("name", value), other];
            && ValueAt(tags, FirstName(tags)) == value
            && ValueAt(tags, SearchBetween(tags, 0, 2)) == ""
  {
    var tags := [Tag("name", value), other];
    assert UniqueKeys(tags);
    LookupIsExact(tags);
    FirstHalfIsMissed(2, 0);
  }
}
