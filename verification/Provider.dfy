/** Least-connections choice of a provider URL, with the counters that its `done` handles keep. */
module Provider {
  import opened Sequences

  const MAX_INT64: int := 0x7FFF_FFFF_FFFF_FFFF

  // ----- loads as values

  /** Outstanding handles by URL, and the most that were ever outstanding at once. */
  datatype Load<U(==)> = Load(urls: set<U>, out: multiset<U>, peak: nat)

  datatype Event<U> = Take(url: U) | Give(url: U)

  function CeilDiv(p: nat, n: nat): nat
    requires n > 0
  {
    (p + n - 1) / n
  }

  /** A URL is taken only when no other has fewer handles; any outstanding handle may be given back. */
  ghost predicate Allowed<U>(l: Load<U>, e: Event<U>) {
    match e
    case Take(u) => u in l.urls && forall v :: v in l.urls ==> l.out[u] <= l.out[v]
    case Give(u) => u in l.out
  }

  function After<U>(l: Load<U>, e: Event<U>): Load<U> {
    match e
    case Take(u) => Load(l.urls, l.out + multiset{u}, Max(l.peak, |l.out| + 1))
    case Give(u) => Load(l.urls, l.out - multiset{u}, l.peak)
  }

  ghost predicate Run<U>(l: Load<U>, events: seq<Event<U>>, l': Load<U>)
    decreases |events|
  {
    if events == [] then l' == l
    else Allowed(l, events[0]) && Run(After(l, events[0]), events[1..], l')
  }

  ghost predicate Balanced<U>(l: Load<U>) {
    && l.urls != {}
    && |l.out| <= l.peak
    && (forall u :: u in l.out ==> u in l.urls)
    && forall u :: u in l.urls ==> l.out[u] <= CeilDiv(l.peak, |l.urls|)
  }

  /** The bound: the least number that covers the peak when every URL has as many. */
  lemma CeilIsLeast(p: nat, n: nat, c: nat)
    requires n > 0
    ensures c >= CeilDiv(p, n) <==> c * n >= p
  {
    var q := CeilDiv(p, n);
    assert q * n <= p + n - 1 < q * n + n;
    if c >= q {
      Monotone(q, c, n);
    } else {
      Monotone(c + 1, q, n);
      OneFewer(n, c + 1);
    }
  }

  /** The loads of a run from the start, one after the other. */
  ghost predicate Trace<U>(loads: seq<Load<U>>, events: seq<Event<U>>) {
    && |loads| == |events| + 1 && |loads[0].out| == loads[0].peak
    && forall k :: 0 <= k < |events| ==> loads[k + 1] == After(loads[k], events[k])
  }

  lemma OneEvent<U>(l: Load<U>, e: Event<U>)
    requires |l.out| <= l.peak
    ensures l.peak <= After(l, e).peak && |After(l, e).out| <= After(l, e).peak
    ensures After(l, e).peak == l.peak || After(l, e).peak == |After(l, e).out|
  {
  }

  /** The peak is the most handles that were outstanding at any time of a run, ... */
  lemma {:induction false} PeakCovers<U>(loads: seq<Load<U>>, events: seq<Event<U>>, i: nat, j: nat)
    requires Trace(loads, events) && i <= j <= |events|
    ensures |loads[i].out| <= loads[i].peak <= loads[j].peak
    decreases j
  {
    if j == 0 {
    } else if i < j {
      PeakCovers(loads, events, i, j - 1);
      PeakCovers(loads, events, j - 1, j - 1);
      OneEvent(loads[j - 1], events[j - 1]);
    } else {
      PeakCovers(loads, events, j - 1, j - 1);
      OneEvent(loads[j - 1], events[j - 1]);
    }
  }

  /** ... and so many were outstanding at some time. */
  lemma {:induction false} PeakIsReached<U>(loads: seq<Load<U>>, events: seq<Event<U>>, j: nat) returns (at: nat)
    requires Trace(loads, events) && j <= |events|
    ensures at <= j && |loads[at].out| == loads[j].peak
  {
    if j == 0 {
      at := 0;
    } else {
      at := PeakIsReached(loads, events, j - 1);
      PeakCovers(loads, events, j - 1, j - 1);
      OneEvent(loads[j - 1], events[j - 1]);
      if loads[j].peak != loads[j - 1].peak {
        at := j;
      }
    }
  }

  /** If each URL of a set has at least `c` handles, there are at least c times as many handles. */
  lemma {:induction false} AtLeastEach<U>(urls: set<U>, out: multiset<U>, c: nat)
    requires forall u :: u in urls ==> out[u] >= c
    ensures |out| >= c * |urls|
    decreases urls
  {
    if urls == {} {
    } else {
      var u :| u in urls;
      AtLeastEach(urls - {u}, out[u := 0], c);
      assert urls == (urls - {u}) + {u};
      OneFewer(c, |urls|);
    }
  }

  lemma OneFewer(c: nat, n: nat)
    requires n > 0
    ensures c * n == c * (n - 1) + c
  {
  }

  lemma CeilAtLeast(c: nat, p: nat, n: nat)
    requires n > 0 && c * n + 1 <= p
    ensures c + 1 <= CeilDiv(p, n)
  {
    OneFewer(n, c + 1);
    if c + 1 > CeilDiv(p, n) {
      Monotone(CeilDiv(p, n) + 1, c + 1, n);
    }
  }

  lemma Monotone(a: nat, b: nat, n: nat)
    requires a <= b
    ensures a * n <= b * n
  {
  }

  lemma CeilMonotone(p: nat, q: nat, n: nat)
    requires n > 0 && p <= q
    ensures CeilDiv(p, n) <= CeilDiv(q, n)
  {
    var a, b := CeilDiv(p, n), CeilDiv(q, n);
    if a > b {
      Monotone(b + 1, a, n);
    }
  }

  lemma StepKeepsBalance<U>(l: Load<U>, e: Event<U>)
    requires Balanced(l) && Allowed(l, e)
    ensures Balanced(After(l, e))
  {
    var n := |l.urls|;
    if e.Take? {
      var c := l.out[e.url];
      AtLeastEach(l.urls, l.out, c);
      var peak := Max(l.peak, |l.out| + 1);
      CeilAtLeast(c, peak, n);
      CeilMonotone(l.peak, peak, n);
    }
  }

  /** Over every run, with any choice among equally loaded URLs and any order of release, no URL
      ever has more than ceil(peak / n) handles. */
  lemma {:induction false} RunStaysBalanced<U>(l: Load<U>, events: seq<Event<U>>, l': Load<U>)
    requires Balanced(l) && Run(l, events, l')
    ensures Balanced(l')
    decreases |events|
  {
    if events == [] {
    } else {
      StepKeepsBalance(l, events[0]);
      RunStaysBalanced(After(l, events[0]), events[1..], l');
    }
  }

  lemma StartIsBalanced<U>(urls: set<U>)
    requires urls != {}
    ensures Balanced(Load(urls, multiset{}, 0))
  {
  }

  // ----- the provider

  class HttpUrl {
    const uri: string
    var connections: int

    constructor (uri: string)
      ensures this.uri == uri && connections == 0
    {
      this.uri := uri;
      connections := 0;
    }
  }

  /** The scan for the lowest connection count. */
  method LowestConnections(uri: seq<HttpUrl>) returns (lowest: HttpUrl)
    requires uri != [] && forall u :: u in uri ==> u.connections < MAX_INT64
    ensures lowest in uri && forall u :: u in uri ==> lowest.connections <= u.connections
  {
    var found: HttpUrl? := null;
    var count := MAX_INT64;
    for i := 0 to |uri|
      invariant found == null ==> count == MAX_INT64 && i == 0
      invariant found != null ==> found in uri && count == found.connections
      invariant forall j :: 0 <= j < i ==> count <= uri[j].connections
    {
      assert uri[i] in uri;
      if uri[i].connections < count {
        found := uri[i];
        count := uri[i].connections;
      }
    }
    lowest := found;
  }

  /** `rand.Shuffle`: some permutation. */
  method Shuffle<T>(items: seq<T>) returns (shuffled: seq<T>)
    ensures multiset(shuffled) == multiset(items)
  {
    shuffled := items;
  }

  class Provider {
    var uri: seq<HttpUrl>
    ghost var load: Load<HttpUrl>

    ghost predicate Valid()
      reads this, uri
    {
      && load.urls == (set u | u in uri)
      && (Distinct(uri))
      && (forall u :: u in uri ==> u.connections == load.out[u])
      && (if uri == [] then load.out == multiset{} else Balanced(load))
    }

    constructor (urls: seq<HttpUrl>)
      requires Distinct(urls)
      requires forall u :: u in urls ==> u.connections == 0
      ensures Valid() && uri == urls
      ensures load == Load(set u | u in urls, multiset{}, 0)
    {
      uri := urls;
      load := Load(set u | u in urls, multiset{}, 0);
      new;
      if urls != [] {
        assert urls[0] in load.urls;
        StartIsBalanced(load.urls);
      }
    }

    /** The URL with the fewest connections, of which the caller now holds a handle. */
    method Url() returns (chosen: HttpUrl?)
      requires Valid() && |load.out| < MAX_INT64
      modifies this, uri
      ensures Valid() && multiset(uri) == multiset(old(uri))
      ensures chosen == null <==> old(uri) == []
      ensures chosen == null ==> load == old(load)
      ensures chosen != null ==>
                Allowed(old(load), Take(chosen)) && load == After(old(load), Take(chosen))
      ensures chosen != null ==> chosen.connections <= CeilDiv(load.peak, |uri|)
      ensures chosen != null ==>
                && chosen in old(uri) && chosen.connections == old(chosen.connections) + 1
                && (forall u :: u in old(uri) ==> old(chosen.connections) <= old(u.connections))
                && (forall u :: u in old(uri) && u != chosen ==> u.connections == old(u.connections))
                && load.out == old(load.out) + multiset{chosen} && load.peak == Max(old(load.peak), |load.out|)
    {
      if |uri| == 0 {
        return null;
      }
      ghost var before := uri;
      uri := Shuffle(uri);
      PermutationMembers(before, uri);
      forall u | u in uri ensures u.connections < MAX_INT64 {
        HandlesBound(load.out, u);
      }
      chosen := LowestConnections(uri);
      StepKeepsBalance(load, Take(chosen));
      DistinctCount(uri);
      chosen.connections := chosen.connections + 1;
      load := After(load, Take(chosen));
    }

    /** The `done` closure of a handle. */
    method Done(url: HttpUrl)
      requires Valid() && url in load.out
      modifies url
      modifies `load
      ensures Valid() && load == After(old(load), Give(url)) && uri == old(uri)
      ensures url.connections == old(url.connections) - 1
      ensures load.out == old(load.out) - multiset{url} && load.peak == old(load.peak)
    {
      StepKeepsBalance(load, Give(url));
      url.connections := url.connections - 1;
      load := After(load, Give(url));
    }
  }

  lemma HandlesBound(out: multiset<HttpUrl>, u: HttpUrl)
    ensures out[u] <= |out|
  {
    assert |out[u := 0]| == |out| - out[u];
  }

  lemma {:induction false} DistinctCount(s: seq<HttpUrl>)
    requires Distinct(s)
    ensures |set u | u in s| == |s|
  {
    if s == [] {
    } else {
      var n := |s| - 1;
      DistinctCount(s[..n]);
      assert s == s[..n] + [s[n]];
      assert (set u | u in s) == (set u | u in s[..n]) + {s[n]};
      assert s[n] !in s[..n];
    }
  }
}
