/** The expiring cache in front of the database, and its printed keys. */
module Cache {
  import opened Constants
  import opened Sequences

  datatype Item<+V> = Item(expiration: int, value: V)

  // ----- what the operations compute

  /** A cached value counts only while its expiration lies after `now`. */
  function Answer<V>(items: map<string, Item<V>>, key: string, now: int): Option<V> {
    if key in items && items[key].expiration > now then Some(items[key].value) else None
  }

  function Saved<V>(items: map<string, Item<V>>, key: string, value: V, now: int): map<string, Item<V>> {
    items[key := Item(now + CACHE_DURATION, value)]
  }

  /** A cleanup drops what expired before `now`. */
  function Live<V>(items: map<string, Item<V>>, now: int): map<string, Item<V>> {
    map key | key in items && !(items[key].expiration < now) :: items[key]
  }

  class ExpiringMap<V> {
    var items: map<string, Item<V>>

    constructor ()
      ensures items == map[]
    {
      items := map[];
    }

    method Lookup(key: string, now: int) returns (r: Option<V>)
      ensures r == Answer(items, key, now)
      ensures r.Some? <==> key in items && items[key].expiration > now
      ensures r.Some? ==> r.value == items[key].value
    {
      r := None;
      if key in items {
        var cacheValue := items[key];
        if cacheValue.expiration > now {
          r := Some(cacheValue.value);
        }
      }
    }

    method Save(key: string, value: V, now: int)
      modifies this
      ensures items == Saved(old(items), key, value, now)
      ensures items == old(items)[key := Item(now + 5_000_000_000, value)]
    {
      items := items[key := Item(now + CACHE_DURATION, value)];
    }

    /** One fetch: the cached value if there is one, else the result of `fetch`, saved at `later`.
        A failed fetch changes nothing. */
    method Fetch(key: string, fetched: Option<V>, now: int, later: int) returns (r: Option<V>)
      modifies this
      ensures Answer(old(items), key, now).Some? ==> r == Answer(old(items), key, now)
      ensures Answer(old(items), key, now).None? ==> r == fetched
      ensures items == if Answer(old(items), key, now).None? && fetched.Some?
                       then Saved(old(items), key, fetched.value, later) else old(items)
      ensures if key in old(items) && old(items)[key].expiration > now then
                r == Some(old(items)[key].value) && items == old(items)
              else if fetched.None? then r == None && items == old(items)
              else
                r == fetched && items == old(items)[key := Item(later + 5_000_000_000, fetched.value)]
    {
      r := Lookup(key, now);
      if r.Some? {
        return;
      }
      r := fetched;
      if fetched.Some? {
        Save(key, fetched.value, later);
      }
    }

    /** One tick of the cleanup task: walk over the map and delete expired entries. */
    method Cleanup(now: int)
      modifies this
      ensures items == Live(old(items), now)
      ensures forall key :: key in items <==> key in old(items) && old(items)[key].expiration >= now
      ensures forall key :: key in items ==> items[key] == old(items)[key]
    {
      var todo := items.Keys;
      while todo != {}
        invariant todo <= items.Keys
        invariant items.Keys <= old(items).Keys
        invariant forall key :: key in items ==> items[key] == old(items)[key]
        invariant forall key :: key in old(items) && key in todo ==> key in items
        invariant forall key :: key in old(items) && key !in todo ==>
                    (key in items <==> !(old(items)[key].expiration < now))
        decreases todo
      {
        var key :| key in todo;
        if items[key].expiration < now {
          items := items - {key};
        }
        todo := todo - {key};
      }
    }
  }

  // ----- runs

  /** What happens to a cache. A caller asks for a key and reads the clock; after a miss it queries
      the database, whose answer arrives later and is saved if the query succeeded. Cleanup ticks fall
      anywhere in between. Whether a caller saves at all is decided by the cache's own answer. */
  datatype Event<+V> =
    | Ask(caller: nat, key: string, now: int)
    | Finish(caller: nat, fetched: Option<V>, now: int)
    | Tick(now: int)

  /** The map, the callers waiting for the database with their keys, and what every caller got. */
  datatype Run<+V> = Run(items: map<string, Item<V>>, waiting: map<nat, string>, answers: seq<(nat, Option<V>)>)

  function Asked<V>(r: Run<V>, caller: nat, key: string, now: int): Run<V> {
    if caller in r.waiting then r
    else
      var answer := Answer(r.items, key, now);
      if answer.Some? then r.(answers := r.answers + [(caller, answer)])
      else r.(waiting := r.waiting[caller := key])
  }

  function Finished<V>(r: Run<V>, caller: nat, fetched: Option<V>, now: int): Run<V> {
    if caller !in r.waiting then r
    else
      Run(if fetched.Some? then Saved(r.items, r.waiting[caller], fetched.value, now) else r.items,
          r.waiting - {caller}, r.answers + [(caller, fetched)])
  }

  function Apply<V>(r: Run<V>, e: Event<V>, cleans: bool): Run<V> {
    match e
    case Ask(caller, key, now) => Asked(r, caller, key, now)
    case Finish(caller, fetched, now) => Finished(r, caller, fetched, now)
    case Tick(now) => if cleans then r.(items := Live(r.items, now)) else r
  }

  /** The run from the empty cache, in a cache that cleans up or in one that never does. */
  function After<V>(events: seq<Event<V>>, cleans: bool): Run<V> {
    if events == [] then Run(map[], map[], [])
    else Apply(After(events[..|events| - 1], cleans), events[|events| - 1], cleans)
  }

  /** The clock never goes back. */
  ghost predicate Monotone<V>(events: seq<Event<V>>) {
    forall i, j :: 0 <= i < j < |events| ==> events[i].now <= events[j].now
  }

  /** The cleaned map lacks only entries that had expired by `now`. */
  ghost predicate Agree<V>(cleaned: map<string, Item<V>>, full: map<string, Item<V>>, now: int) {
    && (forall key :: key in cleaned ==> key in full && full[key] == cleaned[key])
    && (forall key :: key in full && key !in cleaned ==> full[key].expiration < now)
  }

  lemma AgreeAnswers<V>(cleaned: map<string, Item<V>>, full: map<string, Item<V>>, key: string, now: int)
    requires Agree(cleaned, full, now)
    ensures Answer(cleaned, key, now) == Answer(full, key, now)
  {
  }

  /** The two caches stay alike in everything but expired entries. */
  lemma {:induction false} CleanupAgrees<V>(events: seq<Event<V>>, now: int)
    requires Monotone(events) && (events != [] ==> events[|events| - 1].now <= now)
    ensures Agree(After(events, true).items, After(events, false).items, now)
    ensures After(events, true).waiting == After(events, false).waiting
    ensures After(events, true).answers == After(events, false).answers
  {
    if events == [] {
    } else {
      var n := |events| - 1;
      CleanupAgrees(events[..n], events[n].now);
      if events[n].Ask? {
        AgreeAnswers(After(events[..n], true).items, After(events[..n], false).items, events[n].key, events[n].now);
      }
    }
  }

  /** No caller can tell whether the cache cleans up: in both, every caller gets the same answers and
      asks the database for the same keys at the same events. */
  lemma CleanupIsInvisible<V>(events: seq<Event<V>>)
    requires Monotone(events)
    ensures After(events, true).answers == After(events, false).answers
    ensures After(events, true).waiting == After(events, false).waiting
  {
    CleanupAgrees(events, if events == [] then 0 else events[|events| - 1].now);
  }

  /** Event `i` saves this value under the key. */
  ghost predicate Saves<V>(events: seq<Event<V>>, i: nat, key: string, cleans: bool) {
    && i < |events| && events[i].Finish? && events[i].fetched.Some?
    && events[i].caller in After(events[..i], cleans).waiting
    && After(events[..i], cleans).waiting[events[i].caller] == key
  }

  /** It is the last to save under the key. */
  ghost predicate LastSave<V>(events: seq<Event<V>>, i: nat, key: string, cleans: bool) {
    Saves(events, i, key, cleans) && forall j :: i < j < |events| ==> !Saves(events, j, key, cleans)
  }

  lemma {:induction false} EntryIsLastSave<V>(events: seq<Event<V>>, key: string, cleans: bool) returns (i: nat)
    requires key in After(events, cleans).items
    ensures LastSave(events, i, key, cleans)
    ensures After(events, cleans).items[key] == Item(events[i].now + CACHE_DURATION, events[i].fetched.value)
  {
    var n := |events| - 1;
    if Saves(events, n, key, cleans) {
      i := n;
    } else {
      i := EntryIsLastSave(events[..n], key, cleans);
      forall j | 0 <= j < n ensures Saves(events, j, key, cleans) == Saves(events[..n], j, key, cleans) {
        assert events[..n][..j] == events[..j];
      }
    }
  }

  /** Every answer out of the cache is what the last save of its key stored, which is younger than the
      cache duration. */
  lemma AnswersAreFresh<V>(events: seq<Event<V>>, key: string, now: int, cleans: bool) returns (i: nat)
    requires Answer(After(events, cleans).items, key, now).Some?
    ensures LastSave(events, i, key, cleans)
    ensures Answer(After(events, cleans).items, key, now) == events[i].fetched
    ensures now - events[i].now < CACHE_DURATION
  {
    i := EntryIsLastSave(events, key, cleans);
  }

  /** The other direction: while the last save is younger than the cache duration, it is the answer. */
  lemma {:induction false} LastSaveIsKept<V>(events: seq<Event<V>>, i: nat, key: string, now: int, cleans: bool)
    requires Monotone(events) && LastSave(events, i, key, cleans)
    requires events[|events| - 1].now <= now < events[i].now + CACHE_DURATION
    ensures Answer(After(events, cleans).items, key, now) == events[i].fetched
    decreases |events|
  {
    var n := |events| - 1;
    assert events[..n][..i] == events[..i];
    if i == n {
    } else {
      forall j | 0 <= j < n ensures Saves(events, j, key, cleans) == Saves(events[..n], j, key, cleans) {
        assert events[..n][..j] == events[..j];
      }
      LastSaveIsKept(events[..n], i, key, now, cleans);
      assert !Saves(events, n, key, cleans);
    }
  }

  /** A key is answered out of the cache if and only if its last save is younger than the cache duration. */
  lemma AnsweredIff<V>(events: seq<Event<V>>, key: string, now: int, cleans: bool)
    requires Monotone(events) && (events != [] ==> events[|events| - 1].now <= now)
    ensures Answer(After(events, cleans).items, key, now).Some?
            <==> exists i: nat :: LastSave(events, i, key, cleans) && now < events[i].now + CACHE_DURATION
  {
    if Answer(After(events, cleans).items, key, now).Some? {
      var i := AnswersAreFresh(events, key, now, cleans);
    }
    if i: nat :| LastSave(events, i, key, cleans) && now < events[i].now + CACHE_DURATION {
      LastSaveIsKept(events, i, key, now, cleans);
    }
  }

  /** What a caller that asks gets: the value of the last save if that is young enough, at once and
      without going to the database; otherwise it waits for the database. */
  lemma AskIsAnswered<V>(events: seq<Event<V>>, caller: nat, key: string, now: int, cleans: bool)
    requires Monotone(events + [Ask(caller, key, now)]) && caller !in After(events, cleans).waiting
    ensures var before, after := After(events, cleans), After(events + [Ask(caller, key, now)], cleans);
      && after.items == before.items
      && (forall i: nat :: LastSave(events, i, key, cleans) && now < events[i].now + CACHE_DURATION ==>
            after.answers == before.answers + [(caller, events[i].fetched)] && after.waiting == before.waiting)
      && ((forall i: nat :: LastSave(events, i, key, cleans) ==> now >= events[i].now + CACHE_DURATION) ==>
            after.answers == before.answers && after.waiting == before.waiting[caller := key])
  {
    var all := events + [Ask(caller, key, now)];
    assert all[..|events|] == events;
    assert forall i :: 0 <= i < |events| ==> all[i] == events[i];
    if events != [] {
      assert all[|events| - 1].now <= all[|events|].now;
    }
    AnsweredIff(events, key, now, cleans);
    forall i: nat | LastSave(events, i, key, cleans) && now < events[i].now + CACHE_DURATION
      ensures Answer(After(events, cleans).items, key, now) == events[i].fetched
    {
      LastSaveIsKept(events, i, key, now, cleans);
    }
  }

  /** What a waiting caller gets when the database answers: that answer, which is saved unless the query
      failed. */
  lemma FinishIsAnswered<V>(events: seq<Event<V>>, caller: nat, fetched: Option<V>, now: int, cleans: bool)
    requires caller in After(events, cleans).waiting
    ensures var before, after := After(events, cleans), After(events + [Finish(caller, fetched, now)], cleans);
      && after.answers == before.answers + [(caller, fetched)] && after.waiting == before.waiting - {caller}
      && (fetched.None? ==> after.items == before.items)
      && (fetched.Some? ==> forall at :: now <= at < now + CACHE_DURATION ==>
            Answer(after.items, before.waiting[caller], at) == fetched)
      && forall key, at :: key != before.waiting[caller] ==>
           Answer(after.items, key, at) == Answer(before.items, key, at)
  {
    assert (events + [Finish(caller, fetched, now)])[..|events|] == events;
  }

  // ----- printed keys

  function Digit(d: nat): char
    requires d < 10
  {
    ('0' as int + d) as char
  }

  /** A number in decimal digits. */
  function Decimal(n: nat): (s: string)
    ensures s != []
  {
    if n < 10 then [Digit(n)] else Decimal(n / 10) + [Digit(n % 10)]
  }

  function CategoryKey(name: string, ownerId: nat): string { Decimal(ownerId) + ":" + name }

  function CentroidsKey(categoryId: nat): string { Decimal(categoryId) }

  lemma {:induction false} DecimalHasNoColon(n: nat)
    ensures ':' !in Decimal(n)
  {
    if n < 10 {
    } else {
      DecimalHasNoColon(n / 10);
    }
  }

  lemma {:induction false} DecimalInjective(m: nat, n: nat)
    requires Decimal(m) == Decimal(n)
    ensures m == n
  {
    var s := Decimal(m);
    if m >= 10 && n >= 10 {
      assert Decimal(m / 10) == s[..|s| - 1] == Decimal(n / 10);
      DecimalInjective(m / 10, n / 10);
      assert Digit(m % 10) == s[|s| - 1] == Digit(n % 10);
    } else if m < 10 && n < 10 {
      assert s[0] == Digit(m) == Digit(n);
    }
  }

  /** The printed key of a category tells owner and name, even for names that contain ':'. */
  lemma CategoryKeyInjective(name1: string, owner1: nat, name2: string, owner2: nat)
    requires CategoryKey(name1, owner1) == CategoryKey(name2, owner2)
    ensures name1 == name2 && owner1 == owner2
  {
    var a, b := Decimal(owner1), Decimal(owner2);
    var key := CategoryKey(name1, owner1);
    DecimalHasNoColon(owner1);
    DecimalHasNoColon(owner2);
    assert key[|a|] == ':' && key[|b|] == ':';
    assert forall i :: 0 <= i < |a| ==> key[i] == a[i];
    assert forall i :: 0 <= i < |b| ==> key[i] == b[i];
    assert |a| == |b|;
    assert a == key[..|a|] == b;
    assert name1 == key[|a| + 1..] == name2;
    DecimalInjective(owner1, owner2);
  }

  lemma CentroidsKeyInjective(id1: nat, id2: nat)
    requires CentroidsKey(id1) == CentroidsKey(id2)
    ensures id1 == id2
  {
    DecimalInjective(id1, id2);
  }
}
