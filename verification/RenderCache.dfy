/** Sorting by a string key, as Python's `sorted` orders strings: by code point, then length. */
module KeyedSort {
  datatype Keyed<T> = Keyed(key: string, item: T)

  predicate Leq(a: string, b: string) {
    a == "" || (b != "" && (a[0] < b[0] || (a[0] == b[0] && Leq(a[1..], b[1..]))))
  }

  lemma {:induction false} LeqTotal(a: string, b: string)
    ensures Leq(a, b) || Leq(b, a)
    ensures Leq(a, b) && Leq(b, a) ==> a == b
  {
    if a != "" && b != "" {
      LeqTotal(a[1..], b[1..]);
      assert a == [a[0]] + a[1..] && b == [b[0]] + b[1..];
    }
  }

  lemma {:induction false} LeqTransitive(a: string, b: string, c: string)
    requires Leq(a, b) && Leq(b, c)
    ensures Leq(a, c)
  {
    if a != "" && a[0] == b[0] && b[0] == c[0] {
      LeqTransitive(a[1..], b[1..], c[1..]);
    }
  }

  predicate Sorted<T>(s: seq<Keyed<T>>) {
    forall i, j :: 0 <= i < j < |s| ==> Leq(s[i].key, s[j].key)
  }

  function Insert<T>(x: Keyed<T>, s: seq<Keyed<T>>): seq<Keyed<T>> {
    if s == [] || Leq(x.key, s[0].key) then [x] + s else [s[0]] + Insert(x, s[1..])
  }

  function Sort<T>(s: seq<Keyed<T>>): seq<Keyed<T>> {
    if s == [] then [] else Insert(s[0], Sort(s[1..]))
  }

  lemma {:induction false} InsertSorts<T>(x: Keyed<T>, s: seq<Keyed<T>>)
    requires Sorted(s)
    ensures Sorted(Insert(x, s)) && multiset(Insert(x, s)) == multiset(s) + multiset{x}
  {
    if s == [] {
    } else if Leq(x.key, s[0].key) {
      forall j | 0 <= j < |s| ensures Leq(x.key, s[j].key) {
        if j > 0 {
          LeqTransitive(x.key, s[0].key, s[j].key);
        }
      }
    } else {
      LeqTotal(x.key, s[0].key);
      InsertSorts(x, s[1..]);
      var rest := Insert(x, s[1..]);
      assert s == [s[0]] + s[1..];
      forall j | 0 <= j < |rest| ensures Leq(s[0].key, rest[j].key) {
        assert rest[j] in multiset(rest);
        assert rest[j] == x || rest[j] in s[1..];
      }
    }
  }

  lemma {:induction false} SortSorts<T>(s: seq<Keyed<T>>)
    ensures Sorted(Sort(s)) && multiset(Sort(s)) == multiset(s)
  {
    if s != [] {
      SortSorts(s[1..]);
      InsertSorts(s[0], Sort(s[1..]));
      assert s == [s[0]] + s[1..];
    }
  }

  // No two different items share a key.
  ghost predicate Determined<T>(s: seq<Keyed<T>>) {
    forall i, j :: 0 <= i < |s| && 0 <= j < |s| && s[i].key == s[j].key ==> s[i] == s[j]
  }

  lemma SortedFirst<T>(s: seq<Keyed<T>>, t: seq<Keyed<T>>)
    requires Sorted(s) && Sorted(t) && s != [] && multiset(s) == multiset(t)
    ensures t != [] && Leq(t[0].key, s[0].key)
  {
    assert s[0] in multiset(t);
    var i :| 0 <= i < |t| && t[i] == s[0];
    LeqTotal(s[0].key, s[0].key);
  }

  lemma SameFirst<T>(s: seq<Keyed<T>>, t: seq<Keyed<T>>)
    requires Sorted(s) && Sorted(t) && Determined(s) && s != [] && multiset(s) == multiset(t)
    ensures t != [] && s[0] == t[0]
  {
    SortedFirst(s, t);
    SortedFirst(t, s);
    LeqTotal(s[0].key, t[0].key);
    assert t[0] in multiset(s);
    var j :| 0 <= j < |s| && s[j] == t[0];
  }

  lemma SameRest<T>(s: seq<T>, t: seq<T>)
    requires s != [] && t != [] && s[0] == t[0] && multiset(s) == multiset(t)
    ensures multiset(s[1..]) == multiset(t[1..])
  {
    assert s == [s[0]] + s[1..] && t == [t[0]] + t[1..];
    assert multiset(s[1..]) == multiset(s) - multiset{s[0]};
  }

  lemma {:induction false} SortedUnique<T>(s: seq<Keyed<T>>, t: seq<Keyed<T>>)
    requires Sorted(s) && Sorted(t) && Determined(s) && multiset(s) == multiset(t)
    ensures s == t
    decreases |s|
  {
    if s == [] {
      assert |multiset(t)| == |t|;
    } else {
      SameFirst(s, t);
      SameRest(s, t);
      SortedUnique(s[1..], t[1..]);
      assert s == [s[0]] + s[1..] && t == [t[0]] + t[1..];
    }
  }

  lemma DeterminedBag<T>(s: seq<Keyed<T>>, t: seq<Keyed<T>>)
    requires Determined(s) && multiset(s) == multiset(t)
    ensures Determined(t)
  {
    forall i, j | 0 <= i < |t| && 0 <= j < |t| && t[i].key == t[j].key
      ensures t[i] == t[j]
    {
      assert t[i] in multiset(s) && t[j] in multiset(s);
      var k :| 0 <= k < |s| && s[k] == t[i];
      var l :| 0 <= l < |s| && s[l] == t[j];
    }
  }

  /** Two determined lists sort to the same list iff they hold the same items the same number of times. */
  lemma SortErasesOrder<T>(s: seq<Keyed<T>>, t: seq<Keyed<T>>)
    requires Determined(s)
    ensures Sort(s) == Sort(t) <==> multiset(s) == multiset(t)
  {
    SortSorts(s);
    SortSorts(t);
    if multiset(s) == multiset(t) {
      DeterminedBag(s, Sort(s));
      SortedUnique(Sort(s), Sort(t));
    }
  }

  // Elements are equal across the first two lists exactly where they are across the last two.
  ghost predicate SameEqualities<A, B>(fa: seq<A>, fb: seq<A>, ga: seq<B>, gb: seq<B>) {
    && |fa| == |ga| && |fb| == |gb|
    && forall i, j :: 0 <= i < |fa| && 0 <= j < |fb| ==> (fa[i] == fb[j] <==> ga[i] == gb[j])
  }

  lemma SameWithout<A, B>(fa: seq<A>, fb: seq<A>, ga: seq<B>, gb: seq<B>, j: nat)
    requires SameEqualities(fa, fb, ga, gb) && fa != [] && j < |fb|
    ensures SameEqualities(fa[1..], fb[..j] + fb[j + 1..], ga[1..], gb[..j] + gb[j + 1..])
  {
    var restF, restG := fb[..j] + fb[j + 1..], gb[..j] + gb[j + 1..];
    forall i, k | 0 <= i < |fa| - 1 && 0 <= k < |restF|
      ensures fa[1..][i] == restF[k] <==> ga[1..][i] == restG[k]
    {
      var l := if k < j then k else k + 1;
      assert restF[k] == fb[l] && restG[k] == gb[l];
      assert fa[1..][i] == fa[i + 1] && ga[1..][i] == ga[i + 1];
    }
  }

  /** Then equal bags on one side mean equal bags on the other. */
  lemma {:induction false} TransportBag<A, B>(fa: seq<A>, fb: seq<A>, ga: seq<B>, gb: seq<B>)
    requires SameEqualities(fa, fb, ga, gb) && multiset(fa) == multiset(fb)
    ensures multiset(ga) == multiset(gb)
    decreases |fa|
  {
    assert |fa| == |multiset(fa)| == |multiset(fb)| == |fb|;
    if fa != [] {
      assert fa[0] in multiset(fb);
      var j :| 0 <= j < |fb| && fb[j] == fa[0];
      SameWithout(fa, fb, ga, gb, j);
      First(fa);
      Without(fb, j);
      Cancel(multiset(fa[1..]), multiset(fb[..j] + fb[j + 1..]), fa[0]);
      TransportBag(fa[1..], fb[..j] + fb[j + 1..], ga[1..], gb[..j] + gb[j + 1..]);
      First(ga);
      Without(gb, j);
    }
  }

  lemma TransportSeq<A, B>(fa: seq<A>, fb: seq<A>, ga: seq<B>, gb: seq<B>)
    requires SameEqualities(fa, fb, ga, gb) && fa == fb
    ensures ga == gb
  {
  }

  lemma Cancel<T>(a: multiset<T>, b: multiset<T>, x: T)
    requires a + multiset{x} == b + multiset{x}
    ensures a == b
  {
    assert a == a + multiset{x} - multiset{x} && b == b + multiset{x} - multiset{x};
  }

  lemma First<T>(s: seq<T>)
    requires s != []
    ensures multiset(s) == multiset(s[1..]) + multiset{s[0]}
  {
    assert s == [s[0]] + s[1..];
  }

  lemma Without<T>(s: seq<T>, j: nat)
    requires j < |s|
    ensures multiset(s) == multiset(s[..j] + s[j + 1..]) + multiset{s[j]}
  {
    assert s == s[..j] + [s[j]] + s[j + 1..];
  }
}

/**
 Rebuild a panel section only when its data moved: a digest of the whole payload, in a
 canonical form that forgets mapping and set order, is remembered per section.
 */
module RenderCache {
  import opened Common
  import opened KeyedSort

  datatype Payload =
      // `repr` of the value, or nothing when it raises
    | Scalar(repr: Option<string>)
      // entries in insertion order, keys through `str`
    | Dict(entries: seq<Entry>)
    | List(items: seq<Payload>)
    | Tuple(items: seq<Payload>)
    | Set(items: seq<Payload>)

  datatype Entry = Entry(key: string, value: Payload)

  const UNREADABLE := "\0unreadable"

  /** What `_canonical` returns. */
  datatype Canon =
    | Atom(text: string)
    | Pairs(pairs: seq<Keyed<Canon>>)
    | Items(items: seq<Canon>)
    | Texts(texts: seq<Keyed<()>>)

  // `show` is `repr` on canonical forms.
  function Canonical(p: Payload, show: Canon -> string): Canon {
    match p
    case Scalar(repr) => Atom(if repr.Some? then repr.value else UNREADABLE)
    case Dict(entries) => Pairs(Sort(CanonPairs(entries, show)))
    case List(items) => Items(CanonItems(items, show))
    case Tuple(items) => Items(CanonItems(items, show))
    case Set(items) => Texts(Sort(CanonTexts(items, show)))
  }

  function CanonPairs(entries: seq<Entry>, show: Canon -> string): seq<Keyed<Canon>> {
    seq(|entries|, i requires 0 <= i < |entries| => Keyed(entries[i].key, Canonical(entries[i].value, show)))
  }

  function CanonItems(items: seq<Payload>, show: Canon -> string): seq<Canon> {
    seq(|items|, i requires 0 <= i < |items| => Canonical(items[i], show))
  }

  function CanonTexts(items: seq<Payload>, show: Canon -> string): seq<Keyed<()>> {
    seq(|items|, i requires 0 <= i < |items| => Keyed(show(Canonical(items[i], show)), ()))
  }

  /** The data a payload stands for: mappings and sets without order, sequences in order, list or tuple alike. */
  datatype Data =
    | Value(text: string)
    | Mapping(pairs: multiset<Keyed<Data>>)
    | Sequence(items: seq<Data>)
    | Bag(members: multiset<Data>)

  ghost function Meaning(p: Payload): Data {
    match p
    case Scalar(repr) => Value(if repr.Some? then repr.value else UNREADABLE)
    case Dict(entries) => Mapping(multiset(MeaningPairs(entries)))
    case List(items) => Sequence(MeaningItems(items))
    case Tuple(items) => Sequence(MeaningItems(items))
    case Set(items) => Bag(multiset(MeaningItems(items)))
  }

  ghost function MeaningPairs(entries: seq<Entry>): seq<Keyed<Data>> {
    seq(|entries|, i requires 0 <= i < |entries| => Keyed(entries[i].key, Meaning(entries[i].value)))
  }

  ghost function MeaningItems(items: seq<Payload>): seq<Data> {
    seq(|items|, i requires 0 <= i < |items| => Meaning(items[i]))
  }

  /** No mapping anywhere in the payload has two keys that read the same through `str`. */
  ghost predicate DistinctKeys(p: Payload) {
    match p
    case Scalar(_) => true
    case Dict(entries) =>
      && (forall i, j :: 0 <= i < j < |entries| ==> entries[i].key != entries[j].key)
      && (forall i :: 0 <= i < |entries| ==> DistinctKeys(entries[i].value))
    case List(items) => forall i :: 0 <= i < |items| ==> DistinctKeys(items[i])
    case Tuple(items) => forall i :: 0 <= i < |items| ==> DistinctKeys(items[i])
    case Set(items) => forall i :: 0 <= i < |items| ==> DistinctKeys(items[i])
  }

  ghost predicate Injective<A(!new), B>(f: A -> B) {
    forall x, y :: f(x) == f(y) ==> x == y
  }

  /******* Canonical forms are equal iff the data is *******/

  lemma DictCase(a: seq<Entry>, b: seq<Entry>, show: Canon -> string)
    requires forall i, j :: 0 <= i < j < |a| ==> a[i].key != a[j].key
    requires forall i, j :: 0 <= i < |a| && 0 <= j < |b| ==>
               (Canonical(a[i].value, show) == Canonical(b[j].value, show)
                <==> Meaning(a[i].value) == Meaning(b[j].value))
    ensures Sort(CanonPairs(a, show)) == Sort(CanonPairs(b, show))
        <==> multiset(MeaningPairs(a)) == multiset(MeaningPairs(b))
  {
    SortErasesOrder(CanonPairs(a, show), CanonPairs(b, show));
    if multiset(CanonPairs(a, show)) == multiset(CanonPairs(b, show)) {
      TransportBag(CanonPairs(a, show), CanonPairs(b, show), MeaningPairs(a), MeaningPairs(b));
    }
    if multiset(MeaningPairs(a)) == multiset(MeaningPairs(b)) {
      TransportBag(MeaningPairs(a), MeaningPairs(b), CanonPairs(a, show), CanonPairs(b, show));
    }
  }

  lemma SetCase(a: seq<Payload>, b: seq<Payload>, show: Canon -> string)
    requires Injective(show)
    requires forall i, j :: 0 <= i < |a| && 0 <= j < |b| ==>
               (Canonical(a[i], show) == Canonical(b[j], show) <==> Meaning(a[i]) == Meaning(b[j]))
    ensures Sort(CanonTexts(a, show)) == Sort(CanonTexts(b, show))
        <==> multiset(MeaningItems(a)) == multiset(MeaningItems(b))
  {
    SortErasesOrder(CanonTexts(a, show), CanonTexts(b, show));
    if multiset(CanonTexts(a, show)) == multiset(CanonTexts(b, show)) {
      TransportBag(CanonTexts(a, show), CanonTexts(b, show), MeaningItems(a), MeaningItems(b));
    }
    if multiset(MeaningItems(a)) == multiset(MeaningItems(b)) {
      TransportBag(MeaningItems(a), MeaningItems(b), CanonTexts(a, show), CanonTexts(b, show));
    }
  }

  lemma ItemsCase(a: seq<Payload>, b: seq<Payload>, show: Canon -> string)
    requires forall i, j :: 0 <= i < |a| && 0 <= j < |b| ==>
               (Canonical(a[i], show) == Canonical(b[j], show) <==> Meaning(a[i]) == Meaning(b[j]))
    ensures CanonItems(a, show) == CanonItems(b, show) <==> MeaningItems(a) == MeaningItems(b)
  {
    if CanonItems(a, show) == CanonItems(b, show) {
      TransportSeq(CanonItems(a, show), CanonItems(b, show), MeaningItems(a), MeaningItems(b));
    }
    if MeaningItems(a) == MeaningItems(b) {
      TransportSeq(MeaningItems(a), MeaningItems(b), CanonItems(a, show), CanonItems(b, show));
    }
  }

  /** Two payloads get the same canonical form iff they stand for the same data. */
  lemma {:induction false} CanonicalExactly(a: Payload, b: Payload, show: Canon -> string)
    requires DistinctKeys(a) && DistinctKeys(b) && Injective(show)
    ensures Canonical(a, show) == Canonical(b, show) <==> Meaning(a) == Meaning(b)
    decreases a
  {
    if a.Dict? && b.Dict? {
      forall i, j | 0 <= i < |a.entries| && 0 <= j < |b.entries|
        ensures Canonical(a.entries[i].value, show) == Canonical(b.entries[j].value, show)
                <==> Meaning(a.entries[i].value) == Meaning(b.entries[j].value)
      {
        CanonicalExactly(a.entries[i].value, b.entries[j].value, show);
      }
      DictCase(a.entries, b.entries, show);
    } else if !a.Scalar? && !a.Dict? && !b.Scalar? && !b.Dict? {
      forall i, j | 0 <= i < |a.items| && 0 <= j < |b.items|
        ensures Canonical(a.items[i], show) == Canonical(b.items[j], show)
            <==> Meaning(a.items[i]) == Meaning(b.items[j])
      {
        CanonicalExactly(a.items[i], b.items[j], show);
      }
      SetCase(a.items, b.items, show);
      ItemsCase(a.items, b.items, show);
    }
  }

  /******* The cache *******/

  /** `SectionCache`: one digest per section drawn. */
  class SectionCache {
    const enabled: bool
    var seen: map<string, string>

    constructor (enabled: bool)
      ensures this.enabled == enabled && seen == map[]
    {
      this.enabled := enabled;
      seen := map[];
    }

    /** `digest` is absent when digesting the payload raised. */
    method Changed(section: string, digest: Option<string>) returns (changed: bool)
      modifies this
      ensures (changed, seen) == ChangedSpec(enabled, old(seen), section, digest)
      ensures !enabled ==> changed && seen == old(seen)
      ensures enabled ==> forall s :: s != section ==>
                (s in seen <==> s in old(seen)) && (s in seen ==> seen[s] == old(seen)[s])
      ensures enabled && digest.None? ==> changed && section !in seen
      ensures enabled && digest.Some? ==>
                && section in seen && seen[section] == digest.value
                && (changed <==> section !in old(seen) || old(seen)[section] != digest.value)
    {
      if !enabled {
        return true;
      }
      if digest.None? {
        Forget(section);
        return true;
      }
      if section in seen && seen[section] == digest.value {
        return false;
      }
      seen := seen[section := digest.value];
      changed := true;
    }

    method Forget(section: string)
      modifies this
      ensures seen == old(seen) - {section}
    {
      seen := seen - {section};
    }

    method ForgetAll()
      modifies this
      ensures seen == map[]
    {
      seen := map[];
    }
  }

  function ChangedSpec(
      enabled: bool, seen: map<string, string>, section: string, digest: Option<string>): (bool, map<string, string>) {
    if !enabled then (true, seen)
    else if digest.None? then (true, seen - {section})
    else if section in seen && seen[section] == digest.value then (false, seen)
    else (true, seen[section := digest.value])
  }

  /** The answer and the memory afterwards, case by case; with the cache off every section renders. */
  lemma ChangedExactly(seen: map<string, string>, section: string, digest: string)
    ensures ChangedSpec(false, seen, section, Some(digest)) == (true, seen)
    ensures ChangedSpec(false, seen, section, None) == (true, seen)
    ensures var (changed, after) := ChangedSpec(true, seen, section, None);
            && changed && section !in after
            && forall s :: s != section ==> (s in after <==> s in seen) && (s in after ==> after[s] == seen[s])
    ensures var (changed, after) := ChangedSpec(true, seen, section, Some(digest));
            && (changed <==> section !in seen || seen[section] != digest)
            && section in after && after[section] == digest
            && forall s :: s != section ==> (s in after <==> s in seen) && (s in after ==> after[s] == seen[s])
  {
  }

  /******* A page over its life *******/

  /** One refresh of one section, or a caller dropping what is remembered. */
  datatype Event =
      // `forgets`: the caller drops the section when the render raises, as it must
    | Tick(section: string, payload: Payload, digests: bool, renders: bool, forgets: bool)
    | Drop(section: string)
    | DropAll

  // `drawn`: the payload each section was last drawn from; a failed render leaves none.
  datatype Page = Page(seen: map<string, string>, drawn: map<string, Payload>)

  // The page's digest of a payload: blake2b over the canonical form's `repr`.
  function Digest(p: Payload, show: Canon -> string, hash: Canon -> string): string {
    hash(Canonical(p, show))
  }

  /** A caller's refresh: render when told to, and the section is empty when the render raises. */
  function Refresh(page: Page, e: Event, show: Canon -> string, hash: Canon -> string): (bool, Page) {
    match e
    case Drop(section) => (true, page.(seen := page.seen - {section}))
    case DropAll => (true, page.(seen := map[]))
    case Tick(section, payload, digests, renders, forgets) =>
      var digest := if digests then Some(Digest(payload, show, hash)) else None;
      var (changed, seen) := ChangedSpec(true, page.seen, section, digest);
      if !changed then (false, page)
      else if renders then (true, Page(seen, page.drawn[section := payload]))
      else (true, Page(if forgets then seen - {section} else seen, page.drawn - {section}))
  }

  /** The same refresh with the cache switched off: every tick renders. */
  function Rebuild(drawn: map<string, Payload>, e: Event): map<string, Payload> {
    match e
    case Tick(section, payload, _, renders, _) => if renders then drawn[section := payload] else drawn - {section}
    case _ => drawn
  }

  function Life(events: seq<Event>, show: Canon -> string, hash: Canon -> string): Page {
    if events == [] then Page(map[], map[])
    else Refresh(Life(events[..|events| - 1], show, hash), events[|events| - 1], show, hash).1
  }

  function AlwaysRebuilt(events: seq<Event>): map<string, Payload> {
    if events == [] then map[] else Rebuild(AlwaysRebuilt(events[..|events| - 1]), events[|events| - 1])
  }

  // Keys as they should be, and every failed render is followed by the `forget` it owes.
  ghost predicate GoodEvents(events: seq<Event>) {
    forall i :: 0 <= i < |events| && events[i].Tick? ==>
      DistinctKeys(events[i].payload) && (events[i].renders || events[i].forgets)
  }

  // A remembered digest is the digest of what is on screen.
  ghost predicate Honest(page: Page, show: Canon -> string, hash: Canon -> string) {
    && (forall s :: s in page.seen ==> s in page.drawn && page.seen[s] == Digest(page.drawn[s], show, hash))
    && (forall s :: s in page.drawn ==> DistinctKeys(page.drawn[s]))
  }

  lemma {:induction false} AlwaysHonest(events: seq<Event>, show: Canon -> string, hash: Canon -> string)
    requires GoodEvents(events)
    ensures Honest(Life(events, show, hash), show, hash)
  {
    if events != [] {
      AlwaysHonest(events[..|events| - 1], show, hash);
    }
  }

  lemma SkippedIsSame(page: Page, e: Event, show: Canon -> string, hash: Canon -> string)
    requires Honest(page, show, hash) && e.Tick? && DistinctKeys(e.payload) && Injective(show) && Injective(hash)
    requires !Refresh(page, e, show, hash).0
    ensures e.section in page.drawn && Meaning(page.drawn[e.section]) == Meaning(e.payload)
  {
    CanonicalExactly(page.drawn[e.section], e.payload, show);
  }

  /**
   Over any life of a page, whenever `changed` answers False the section on screen equals a
   fresh render of the current payload, for every render that depends only on the data.
   */
  lemma SkipIsFresh<S>(events: seq<Event>, e: Event, show: Canon -> string, hash: Canon -> string, render: Data -> S)
    requires GoodEvents(events) && e.Tick? && DistinctKeys(e.payload) && Injective(show) && Injective(hash)
    requires !Refresh(Life(events, show, hash), e, show, hash).0
    ensures e.section in Life(events, show, hash).drawn
    ensures render(Meaning(Life(events, show, hash).drawn[e.section])) == render(Meaning(e.payload))
  {
    AlwaysHonest(events, show, hash);
    SkippedIsSame(Life(events, show, hash), e, show, hash);
  }

  // What always rebuilding shows, the page shows too, up to order and list or tuple.
  ghost predicate Agrees(page: Page, always: map<string, Payload>) {
    forall s :: s in always ==> s in page.drawn && Meaning(page.drawn[s]) == Meaning(always[s])
  }

  lemma AgreesAfter(page: Page, always: map<string, Payload>, e: Event, show: Canon -> string, hash: Canon -> string)
    requires Honest(page, show, hash) && Agrees(page, always) && Injective(show) && Injective(hash)
    requires e.Tick? ==> DistinctKeys(e.payload) && (e.renders || e.forgets)
    ensures Agrees(Refresh(page, e, show, hash).1, Rebuild(always, e))
  {
    if e.Tick? && !Refresh(page, e, show, hash).0 {
      SkippedIsSame(page, e, show, hash);
    }
  }

  /** The gated page never shows less or older data than one that is always rebuilt. */
  lemma {:induction false} GatedAgreesWithRebuilding(events: seq<Event>, show: Canon -> string, hash: Canon -> string)
    requires GoodEvents(events) && Injective(show) && Injective(hash)
    ensures Agrees(Life(events, show, hash), AlwaysRebuilt(events))
  {
    if events != [] {
      var n := |events| - 1;
      AlwaysHonest(events[..n], show, hash);
      GatedAgreesWithRebuilding(events[..n], show, hash);
      AgreesAfter(Life(events[..n], show, hash), AlwaysRebuilt(events[..n]), events[n], show, hash);
    }
  }

  // The last tick of `section` was skipped although its render would have raised.
  predicate SpuriouslyKept(events: seq<Event>, section: string, show: Canon -> string, hash: Canon -> string) {
    events != []
    && var n := |events| - 1;
       var e := events[n];
       if e.Tick? && e.section == section
       then !e.renders && !Refresh(Life(events[..n], show, hash), e, show, hash).0
       else SpuriouslyKept(events[..n], section, show, hash)
  }

  /**
   The two pages show the same sections but for those: a section is on the gated page and not on
   the always rebuilt one iff its last tick was skipped although its render would have raised.
   */
  lemma {:induction false} PagesCoincideExactly(
      events: seq<Event>, section: string, show: Canon -> string, hash: Canon -> string)
    requires GoodEvents(events) && Injective(show) && Injective(hash)
    ensures section in AlwaysRebuilt(events) ==> section in Life(events, show, hash).drawn
    ensures section in Life(events, show, hash).drawn && section !in AlwaysRebuilt(events)
            <==> SpuriouslyKept(events, section, show, hash)
  {
    GatedAgreesWithRebuilding(events, show, hash);
    if events != [] {
      var n := |events| - 1;
      AlwaysHonest(events[..n], show, hash);
      PagesCoincideExactly(events[..n], section, show, hash);
    }
  }

  /**
   Without the `forget` a failed render owes, the next tick of the same payload is skipped over a
   section that shows nothing; with it, that tick renders.
   */
  lemma ForgettingIsNeeded(events: seq<Event>, e: Event, again: Event, show: Canon -> string, hash: Canon -> string)
    requires e.Tick? && e.digests && !e.renders && Refresh(Life(events, show, hash), e, show, hash).0
    requires again.Tick? && again.section == e.section && again.payload == e.payload && again.digests
    ensures var page := Life(events + [e], show, hash);
            e.section !in page.drawn && (Refresh(page, again, show, hash).0 <==> e.forgets)
  {
    assert (events + [e])[..|events|] == events;
  }
}
