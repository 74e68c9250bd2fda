/** The revocation list of JwtUtil: a std::set ordered by token, purged by time and bounded by
    evicting the earliest expiry, against the ideal set of every token ever revoked. */
module Revocation {

  datatype Entry = Entry(token: string, expireAt: int)

  /** The set in iteration order. */
  type Blacklist = seq<Entry>

  /** operator< of std::string. */
  predicate Less(a: string, b: string)
  {
    b != "" && (a == "" || a[0] < b[0] || (a[0] == b[0] && Less(a[1..], b[1..])))
  }

  ghost predicate Sorted(l: Blacklist) { forall i, j :: 0 <= i < j < |l| ==> Less(l[i].token, l[j].token) }

  predicate Listed(l: Blacklist, t: string) { exists i :: 0 <= i < |l| && l[i].token == t }

  function Erase(l: Blacklist, i: nat): Blacklist
    requires i < |l|
  {
    l[..i] + l[i + 1..]
  }

  function Purge(l: Blacklist, now: int): Blacklist
  {
    if l == [] then []
    else if l[0].expireAt <= now then Purge(l[1..], now)
    else [l[0]] + Purge(l[1..], now)
  }

  /** The first entry of the first k whose expiry is least. */
  function Oldest(l: Blacklist, k: nat): (i: nat)
    requires 1 <= k <= |l|
    ensures i < k
  {
    if k == 1 then 0
    else var i := Oldest(l, k - 1); if l[k - 1].expireAt < l[i].expireAt then k - 1 else i
  }

  function Evict(l: Blacklist, maxEntries: int): Blacklist
    decreases |l|
  {
    if maxEntries > 0 && |l| >= maxEntries then Evict(Erase(l, Oldest(l, |l|)), maxEntries) else l
  }

  /** What that loop removes, in order. */
  function Victims(l: Blacklist, maxEntries: int): seq<Entry>
    decreases |l|
  {
    if maxEntries > 0 && |l| >= maxEntries then
      [l[Oldest(l, |l|)]] + Victims(Erase(l, Oldest(l, |l|)), maxEntries)
    else []
  }

  /** Where the ordered set puts a token: before the first entry not less than it. */
  function Position(l: Blacklist, t: string): (i: nat)
    ensures i <= |l|
  {
    if l == [] || !Less(l[0].token, t) then 0 else 1 + Position(l[1..], t)
  }

  function Insert(l: Blacklist, e: Entry): Blacklist
  {
    var i := Position(l, e.token);
    if i < |l| && l[i].token == e.token then l else l[..i] + [e] + l[i..]
  }

  function Load(l: Blacklist, entries: seq<Entry>): Blacklist
    decreases |entries|
  {
    if entries == [] then l else Load(Insert(l, entries[0]), entries[1..])
  }

  function Revoke(l: Blacklist, maxEntries: int, t: string, exp: int, now: int): Blacklist
  {
    if exp == 0 then l else Insert(Evict(Purge(l, now), maxEntries), Entry(t, exp))
  }

  // ----- the order on tokens -----

  lemma {:induction false} LessIrreflexive(a: string)
    ensures !Less(a, a)
  {
    if a != "" { LessIrreflexive(a[1..]); }
  }

  lemma {:induction false} LessTransitive(a: string, b: string, c: string)
    requires Less(a, b) && Less(b, c)
    ensures Less(a, c)
  {
    if a != "" && a[0] == b[0] && b[0] == c[0] { LessTransitive(a[1..], b[1..], c[1..]); }
  }

  lemma {:induction false} LessTotal(a: string, b: string)
    ensures Less(a, b) || a == b || Less(b, a)
  {
    if a != "" && b != "" && a[0] == b[0] {
      LessTotal(a[1..], b[1..]);
      if a[1..] == b[1..] { assert a == [a[0]] + a[1..] == [b[0]] + b[1..] == b; }
    }
  }

  // ----- what each operation does to the list -----

  lemma {:induction false} PositionSplits(l: Blacklist, t: string)
    requires Sorted(l)
    ensures var i := Position(l, t);
            (forall j :: 0 <= j < i ==> Less(l[j].token, t)) &&
            (forall j :: i <= j < |l| && l[j].token != t ==> Less(t, l[j].token)) &&
            (forall j :: i < j < |l| ==> Less(t, l[j].token))
  {
    if l != [] && Less(l[0].token, t) {
      PositionSplits(l[1..], t);
    } else if l != [] {
      LessTotal(l[0].token, t);
      forall j | 0 < j < |l| ensures Less(t, l[j].token) {
        assert Less(l[0].token, l[j].token);
        if l[0].token != t { LessTransitive(t, l[0].token, l[j].token); }
      }
    }
  }

  /** Insertion keeps the order and the old entries, and adds the new one unless its token is there. */
  lemma {:induction false} InsertKeeps(l: Blacklist, e: Entry)
    requires Sorted(l)
    ensures Sorted(Insert(l, e)) && Listed(Insert(l, e), e.token)
    ensures forall x :: x in Insert(l, e) <==> x in l || (x == e && !Listed(l, e.token))
    ensures |Insert(l, e)| == |l| + if Listed(l, e.token) then 0 else 1
  {
    PositionSplits(l, e.token);
    var i := Position(l, e.token);
    LessIrreflexive(e.token);
    if i < |l| && l[i].token == e.token {
      assert Insert(l, e) == l;
    } else {
      assert !Listed(l, e.token);
      var m := Insert(l, e);
      assert m == l[..i] + [e] + l[i..];
      assert m[i] == e;
      forall a, b | 0 <= a < b < |m| ensures Less(m[a].token, m[b].token) {
        assert a < i ==> m[a] == l[a];
        assert a > i ==> m[a] == l[a - 1];
        assert b < i ==> m[b] == l[b];
        assert b > i ==> m[b] == l[b - 1];
      }
    }
  }

  lemma {:induction false} SortedDistinct(l: Blacklist, i: nat, j: nat)
    requires Sorted(l) && i < |l| && j < |l| && l[i].token == l[j].token
    ensures i == j
  {
    LessIrreflexive(l[i].token);
  }

  lemma {:induction false} PurgeKeeps(l: Blacklist, now: int)
    requires Sorted(l)
    ensures Sorted(Purge(l, now))
    ensures forall x :: x in Purge(l, now) <==> x in l && x.expireAt > now
  {
    if l != [] {
      PurgeKeeps(l[1..], now);
      var p := Purge(l[1..], now);
      forall j | 0 <= j < |p| ensures Less(l[0].token, p[j].token) {
        assert p[j] in l[1..];
        var k :| 0 <= k < |l[1..]| && l[1..][k] == p[j];
        assert Less(l[0].token, l[k + 1].token);
      }
    }
  }

  lemma {:induction false} OldestIsLeast(l: Blacklist, k: nat)
    requires 1 <= k <= |l|
    ensures forall j :: 0 <= j < k ==> l[Oldest(l, k)].expireAt <= l[j].expireAt
    ensures forall j :: 0 <= j < Oldest(l, k) ==> l[Oldest(l, k)].expireAt < l[j].expireAt
  {
    if k > 1 { OldestIsLeast(l, k - 1); }
  }

  lemma OldestComesFirst(l: Blacklist, o: nat)
    requires Sorted(l) && o < |l|
    requires forall j :: 0 <= j < |l| ==> l[o].expireAt <= l[j].expireAt
    requires forall j :: 0 <= j < o ==> l[o].expireAt < l[j].expireAt
    ensures forall k :: k in l && k != l[o] ==> Before(l[o], k)
  {
    forall k | k in l && k != l[o] ensures Before(l[o], k) { var j :| 0 <= j < |l| && l[j] == k; }
    hide Less;
  }

  lemma {:induction false} EraseKeeps(l: Blacklist, i: nat)
    requires Sorted(l) && i < |l|
    ensures Sorted(Erase(l, i))
    ensures forall x :: x in Erase(l, i) <==> x in l && x != l[i]
  {
    var m := Erase(l, i);
    forall j | 0 <= j < |m| ensures m[j] in l && m[j] != l[i] {
      var k := if j < i then j else j + 1;
      assert m[j] == l[k];
      if l[k] == l[i] { SortedDistinct(l, k, i); }
    }
    forall x | x in l && x != l[i] ensures x in m {
      var k :| 0 <= k < |l| && l[k] == x;
      assert m[if k < i then k else k - 1] == x;
    }
  }

  /** The order in which entries are given up: by expiry, and by token where that is equal. */
  ghost predicate Before(x: Entry, y: Entry)
  {
    x.expireAt < y.expireAt || (x.expireAt == y.expireAt && Less(x.token, y.token))
  }

  /** Eviction removes exactly as many entries as needed, and those come before all that are kept; this
      leaves no choice. */
  lemma {:induction false} EvictKeeps(l: Blacklist, maxEntries: int)
    requires Sorted(l)
    ensures var r := Evict(l, maxEntries);
            Sorted(r) &&
            |r| == (if maxEntries > 0 && |l| >= maxEntries then maxEntries - 1 else |l|) &&
            (forall x :: x in r ==> x in l) &&
            forall v, k :: v in l && v !in r && k in r ==> Before(v, k)
    decreases |l|
  {
    if maxEntries > 0 && |l| >= maxEntries {
      var o := Oldest(l, |l|);
      OldestIsLeast(l, |l|);
      OldestComesFirst(l, o);
      EraseKeeps(l, o);
      EvictKeeps(Erase(l, o), maxEntries);
    }
  }

  /** The loop splits the list into what it keeps and its victims. */
  lemma {:induction false} VictimsAre(l: Blacklist, maxEntries: int)
    requires Sorted(l)
    ensures var r, v := Evict(l, maxEntries), Victims(l, maxEntries);
            (forall x :: x in l <==> x in r || x in v) && (forall x :: x in r ==> x !in v)
    decreases |l|
  {
    if maxEntries > 0 && |l| >= maxEntries {
      var o := Oldest(l, |l|);
      EraseKeeps(l, o);
      EvictKeeps(Erase(l, o), maxEntries);
      VictimsAre(Erase(l, o), maxEntries);
    }
  }

  /** From any list, even one overfilled by loading: the token is present, the bound holds, what is
      kept was there and unexpired, something unexpired goes only for want of room, and every such
      victim comes before what is kept. */
  lemma {:induction false} RevokeBounds(l: Blacklist, maxEntries: int, t: string, exp: int, now: int)
    requires Sorted(l) && exp != 0
    ensures var r := Revoke(l, maxEntries, t, exp, now);
            Sorted(r) && Listed(r, t) &&
            (maxEntries > 0 ==> |r| <= maxEntries) &&
            (forall x :: x in r ==> x == Entry(t, exp) || (x in l && x.expireAt > now)) &&
            (forall v :: v in l && v.expireAt > now && v !in r ==> 0 < maxEntries <= |Purge(l, now)|) &&
            forall v, k :: v in l && v.expireAt > now && v !in r && k in r && k in l && k != Entry(t, exp)
              ==> Before(v, k)
  {
    var p := Purge(l, now);
    PurgeKeeps(l, now);
    EvictKeeps(p, maxEntries);
    InsertKeeps(Evict(p, maxEntries), Entry(t, exp));
  }

  // ----- agreement with the ideal set -----

  /** What verify makes of a token: it is refused once listed, expired, or without an expiry. */
  predicate Refused(l: Blacklist, now: int, t: string, exp: int) { Listed(l, t) || exp == 0 || now >= exp }

  /** The list stands for the ideal set at time now: everything revoked is still refused, and
      nothing else is listed. */
  ghost predicate Agrees(l: Blacklist, ideal: set<string>, now: int, expOf: string -> int)
  {
    Sorted(l) &&
    (forall t :: t in ideal ==> Refused(l, now, t, expOf(t))) &&
    (forall x :: x in l ==> x.token in ideal)
  }

  ghost predicate CoversExp(l: seq<Entry>, expOf: string -> int)
  {
    forall x :: x in l ==> x.expireAt >= expOf(x.token)
  }

  ghost predicate CarriesExp(l: seq<Entry>, expOf: string -> int)
  {
    forall x :: x in l ==> x.expireAt == expOf(x.token)
  }

  datatype Call =
    | DoRevoke(token: string)
    | DoCleanup
    | DoLoad(entries: seq<Entry>)
    | DoSetMax(maxEntries: int)

  /** A call with the reading of the clock it takes. */
  datatype Event = Event(call: Call, now: int)

  datatype World = World(list: Blacklist, maxEntries: int, ideal: set<string>, now: int)

  function Tokens(entries: seq<Entry>): set<string> { set x | x in entries :: x.token }

  function Step(w: World, e: Event, expOf: string -> int): World
  {
    var w1 := w.(now := e.now);
    match e.call
    case DoRevoke(t) => w1.(list := Revoke(w.list, w.maxEntries, t, expOf(t), e.now), ideal := w.ideal + {t})
    case DoCleanup => w1.(list := Purge(w.list, e.now))
    case DoLoad(entries) => w1.(list := Load(w.list, entries), ideal := w.ideal + Tokens(entries))
    case DoSetMax(m) => w1.(maxEntries := m)
  }

  /** No revocation has to make room: the guard of the eviction loop is false on entry. */
  predicate NoEviction(w: World, e: Event)
  {
    e.call.DoRevoke? ==> w.maxEntries <= 0 || |Purge(w.list, e.now)| < w.maxEntries
  }

  lemma NoEvictionExactly(w: World, t: string, now: int)
    ensures NoEviction(w, Event(DoRevoke(t), now)) <==> Victims(Purge(w.list, now), w.maxEntries) == []
  {
  }

  /** A bound that was set is in force from the next revocation on. */
  lemma {:induction false} SetMaxTakesHold(w: World, m: int, t: string, now: int, expOf: string -> int)
    requires Sorted(w.list) && m > 0 && expOf(t) != 0
    ensures var v := Run(w, [Event(DoSetMax(m), now), Event(DoRevoke(t), now)], expOf);
            |v.list| <= m && Listed(v.list, t)
  {
    var events := [Event(DoSetMax(m), now), Event(DoRevoke(t), now)];
    var w1 := Step(w, events[0], expOf);
    RevokeBounds(w.list, m, t, expOf(t), now);
    assert events[1..] == [Event(DoRevoke(t), now)] && events[1..][1..] == [];
    var w2 := Step(w1, events[1], expOf);
    assert Run(w1, events[1..], expOf) == Run(w2, [], expOf) == w2;
    hide Revoke;
  }

  /** The usual case: no eviction, and nothing loaded that expires before its token. */
  ghost predicate Ordinary(w: World, e: Event, expOf: string -> int)
  {
    w.now <= e.now && NoEviction(w, e) && (e.call.DoLoad? ==> CoversExp(e.call.entries, expOf))
  }

  /** What a call is about to drop, by time or for room, is of dead tokens, or of the token that the
      call itself revokes. */
  ghost predicate Harmless(w: World, e: Event, expOf: string -> int)
  {
    match e.call
    case DoRevoke(t) =>
      expOf(t) != 0 ==>
        (forall x :: x in w.list && x.expireAt <= e.now && x.token != t ==> Dead(x.token, e.now, expOf)) &&
        (forall x :: x in Victims(Purge(w.list, e.now), w.maxEntries) && x.token != t ==> Dead(x.token, e.now, expOf))
    case DoCleanup => PurgesOnlyDead(w.list, e.now, expOf)
    case DoLoad(_) => true
    case DoSetMax(_) => true
  }

  function Run(w: World, events: seq<Event>, expOf: string -> int): World
    decreases |events|
  {
    if events == [] then w else Run(Step(w, events[0], expOf), events[1..], expOf)
  }

  ghost predicate OrdinaryRun(w: World, events: seq<Event>, expOf: string -> int)
    decreases |events|
  {
    events == [] || (Ordinary(w, events[0], expOf) && OrdinaryRun(Step(w, events[0], expOf), events[1..], expOf))
  }

  /** The clock does not go back. */
  predicate Timely(w: World, events: seq<Event>)
    decreases |events|
  {
    events == [] || (w.now <= events[0].now && Timely(w.(now := events[0].now), events[1..]))
  }

  /** Every call of the run is harmless where it comes. */
  ghost predicate HarmlessRun(w: World, events: seq<Event>, expOf: string -> int)
    decreases |events|
  {
    events == [] || (Harmless(w, events[0], expOf) && HarmlessRun(Step(w, events[0], expOf), events[1..], expOf))
  }

  /** After every call of the run the list stands for the ideal set. */
  ghost predicate AlwaysAgrees(w: World, events: seq<Event>, expOf: string -> int)
    decreases |events|
  {
    Agrees(w.list, w.ideal, w.now, expOf) &&
    (events == [] || AlwaysAgrees(Step(w, events[0], expOf), events[1..], expOf))
  }

  lemma {:induction false} LoadKeeps(l: Blacklist, entries: seq<Entry>)
    requires Sorted(l)
    ensures Sorted(Load(l, entries))
    ensures forall x :: x in l ==> x in Load(l, entries)
    ensures forall x :: x in Load(l, entries) ==> x in l || x in entries
    ensures forall x :: x in entries ==> Listed(Load(l, entries), x.token)
    decreases |entries|
  {
    if entries != [] {
      InsertKeeps(l, entries[0]);
      var m := Insert(l, entries[0]);
      LoadKeeps(m, entries[1..]);
      var i :| 0 <= i < |m| && m[i].token == entries[0].token;
      var r := Load(l, entries);
      assert m[i] in r;
      var k :| 0 <= k < |r| && r[k] == m[i];
      assert Listed(r, entries[0].token);
    }
  }

  lemma ListedIn(l: Blacklist, t: string) returns (e: Entry)
    requires Listed(l, t)
    ensures e in l && e.token == t
  {
    var i :| 0 <= i < |l| && l[i].token == t;
    e := l[i];
  }

  lemma InListed(l: Blacklist, e: Entry)
    requires e in l
    ensures Listed(l, e.token)
  {
    var i :| 0 <= i < |l| && l[i] == e;
  }

  /** verify refuses the token at this time whether or not it is listed. */
  predicate Dead(t: string, now: int, expOf: string -> int) { expOf(t) == 0 || expOf(t) <= now }

  /** Every entry that a purge at this time drops is of a dead token. */
  ghost predicate PurgesOnlyDead(l: Blacklist, now: int, expOf: string -> int)
  {
    forall x :: x in l && x.expireAt <= now ==> Dead(x.token, now, expOf)
  }

  /** Purging revives no token if and only if no entry expires before its token does. */
  lemma {:induction false} PurgeAgreesExactly(l: Blacklist, ideal: set<string>, now: int, later: int,
      expOf: string -> int)
    requires Agrees(l, ideal, now, expOf) && now <= later
    ensures Agrees(Purge(l, later), ideal, later, expOf) <==> PurgesOnlyDead(l, later, expOf)
  {
    PurgeKeeps(l, later);
    var p := Purge(l, later);
    if PurgesOnlyDead(l, later, expOf) {
      forall t | t in ideal ensures Refused(p, later, t, expOf(t)) {
        if Listed(l, t) {
          var e := ListedIn(l, t);
          if e in p { InListed(p, e); }
        }
      }
    }
    if Agrees(p, ideal, later, expOf) {
      forall x | x in l && x.expireAt <= later ensures Dead(x.token, later, expOf) {
        if Listed(p, x.token) {
          var y := ListedIn(p, x.token);
          SameToken(l, x, y);
        }
      }
    }
  }

  /** Purging revives no token when entries are kept at least as long as their tokens live. */
  lemma {:induction false} PurgeAgrees(l: Blacklist, ideal: set<string>, now: int, later: int, expOf: string -> int)
    requires Agrees(l, ideal, now, expOf) && CoversExp(l, expOf) && now <= later
    ensures Agrees(Purge(l, later), ideal, later, expOf) && CoversExp(Purge(l, later), expOf)
  {
    PurgeKeeps(l, later);
    PurgeAgreesExactly(l, ideal, now, later, expOf);
  }

  lemma {:induction false} InsertAgrees(l: Blacklist, ideal: set<string>, now: int, e: Entry, expOf: string -> int)
    requires Agrees(l, ideal, now, expOf)
    ensures Agrees(Insert(l, e), ideal + {e.token}, now, expOf)
    ensures CoversExp(l, expOf) && e.expireAt >= expOf(e.token) ==> CoversExp(Insert(l, e), expOf)
  {
    InsertKeeps(l, e);
    var m := Insert(l, e);
    forall t | t in ideal + {e.token} ensures Refused(m, now, t, expOf(t)) {
      if Listed(l, t) {
        var x := ListedIn(l, t);
        InListed(m, x);
      }
    }
  }

  lemma CoversSplit(l: seq<Entry>, expOf: string -> int)
    requires l != []
    ensures CoversExp(l, expOf) ==> l[0].expireAt >= expOf(l[0].token) && CoversExp(l[1..], expOf)
  {
  }

  lemma {:induction false} LoadAgrees(l: Blacklist, ideal: set<string>, now: int, entries: seq<Entry>,
      expOf: string -> int)
    requires Agrees(l, ideal, now, expOf)
    ensures Agrees(Load(l, entries), ideal + Tokens(entries), now, expOf)
    ensures CoversExp(l, expOf) && CoversExp(entries, expOf) ==> CoversExp(Load(l, entries), expOf)
    decreases |entries|
  {
    if entries == [] {
      assert ideal + Tokens(entries) == ideal;
    } else {
      InsertAgrees(l, ideal, now, entries[0], expOf);
      hide Agrees, Insert;
      CoversSplit(entries, expOf);
      hide CoversExp;
      LoadAgrees(Insert(l, entries[0]), ideal + {entries[0].token}, now, entries[1..], expOf);
      TokensSplit(entries);
      hide Load, Tokens;
      assert ideal + {entries[0].token} + Tokens(entries[1..]) == ideal + Tokens(entries);
    }
  }

  lemma TokensSplit(entries: seq<Entry>)
    requires entries != []
    ensures Tokens(entries) == {entries[0].token} + Tokens(entries[1..])
  {
    assert entries == [entries[0]] + entries[1..];
  }

  lemma {:induction false} AgreesLater(l: Blacklist, ideal: set<string>, now: int, later: int, expOf: string -> int)
    requires Agrees(l, ideal, now, expOf) && now <= later
    ensures Agrees(l, ideal, later, expOf)
  {
  }

  /** One revocation keeps the agreement if and only if all it drops is dead or the token itself. */
  lemma {:induction false} RevokeHarmless(w: World, t: string, now: int, expOf: string -> int)
    requires Agrees(w.list, w.ideal, w.now, expOf) && w.now <= now && expOf(t) != 0
    ensures var e := Event(DoRevoke(t), now);
            var v := Step(w, e, expOf);
            Agrees(v.list, v.ideal, v.now, expOf) <==> Harmless(w, e, expOf)
  {
    var l, live := w.list, Purge(w.list, now);
    var kept, victims := Evict(live, w.maxEntries), Victims(live, w.maxEntries);
    PurgeKeeps(l, now);
    EvictKeeps(live, w.maxEntries);
    VictimsAre(live, w.maxEntries);
    InsertKeeps(kept, Entry(t, expOf(t)));
    var r := Insert(kept, Entry(t, expOf(t)));
    var e := Event(DoRevoke(t), now);
    assert Step(w, e, expOf).list == r;
    if Harmless(w, e, expOf) {
      forall u | u in w.ideal + {t} ensures Refused(r, now, u, expOf(u)) {
        if u != t && Listed(l, u) {
          var x := ListedIn(l, u);
          if x in kept { InListed(r, x); }
        }
      }
    }
    if Agrees(r, w.ideal + {t}, now, expOf) {
      forall x | x in l && x !in kept && x.token != t ensures Dead(x.token, now, expOf) {
        if Listed(r, x.token) {
          var y := ListedIn(r, x.token);
          SameToken(l, x, y);
        }
      }
    }
  }

  /** Any one call keeps the agreement if and only if it is harmless. */
  lemma {:induction false} StepAgreesExactly(w: World, e: Event, expOf: string -> int)
    requires Agrees(w.list, w.ideal, w.now, expOf) && w.now <= e.now
    ensures var v := Step(w, e, expOf); Agrees(v.list, v.ideal, v.now, expOf) <==> Harmless(w, e, expOf)
  {
    AgreesLater(w.list, w.ideal, w.now, e.now, expOf);
    match e.call
    case DoRevoke(t) =>
      if expOf(t) != 0 {
        RevokeHarmless(w, t, e.now, expOf);
      }
    case DoCleanup => PurgeAgreesExactly(w.list, w.ideal, w.now, e.now, expOf);
    case DoLoad(entries) => LoadAgrees(w.list, w.ideal, e.now, entries, expOf);
    case DoSetMax(m) =>
  }

  /** Over every run of calls, loads of any entries and evictions included, the list stands for the
      ideal set throughout if and only if every call is harmless where it comes. */
  lemma {:induction false} RunAgreesExactly(w: World, events: seq<Event>, expOf: string -> int)
    requires Agrees(w.list, w.ideal, w.now, expOf) && Timely(w, events)
    ensures AlwaysAgrees(w, events, expOf) <==> HarmlessRun(w, events, expOf)
    decreases |events|
  {
    if events != [] {
      StepAgreesExactly(w, events[0], expOf);
      var v := Step(w, events[0], expOf);
      if Agrees(v.list, v.ideal, v.now, expOf) {
        SameTimely(w.(now := events[0].now), v, events[1..]);
        RunAgreesExactly(v, events[1..], expOf);
      }
      hide Agrees, Harmless, Step;
    }
  }

  lemma {:induction false} SameTimely(w: World, v: World, events: seq<Event>)
    requires Timely(w, events) && v.now == w.now
    ensures Timely(v, events)
    decreases |events|
  {
    if events != [] { SameTimely(w.(now := events[0].now), v.(now := events[0].now), events[1..]); }
  }

  /** Over every harmless run, at every later time, the list refuses exactly the tokens that the
      unpurged set of all revoked tokens would. */
  lemma {:induction false} RunAgrees(w: World, events: seq<Event>, expOf: string -> int, later: int, t: string)
    requires Agrees(w.list, w.ideal, w.now, expOf) && Timely(w, events) && HarmlessRun(w, events, expOf)
    requires Run(w, events, expOf).now <= later
    ensures var v := Run(w, events, expOf);
            Refused(v.list, later, t, expOf(t)) <==> t in v.ideal || expOf(t) == 0 || later >= expOf(t)
    decreases |events|
  {
    if events == [] {
      if Listed(w.list, t) { var e := ListedIn(w.list, t); }
    } else {
      StepAgreesExactly(w, events[0], expOf);
      var v := Step(w, events[0], expOf);
      SameTimely(w.(now := events[0].now), v, events[1..]);
      RunAgrees(v, events[1..], expOf, later, t);
      hide Agrees, Harmless, Step;
    }
  }

  /** Ordinary runs are harmless: without evictions, and with loaded entries kept at least as long as
      their tokens live, nothing is ever dropped too early. */
  lemma {:induction false} OrdinaryIsHarmless(w: World, events: seq<Event>, expOf: string -> int)
    requires Sorted(w.list) && CoversExp(w.list, expOf) && OrdinaryRun(w, events, expOf)
    ensures Timely(w, events) && HarmlessRun(w, events, expOf)
    decreases |events|
  {
    if events != [] {
      OrdinaryStep(w, events[0], expOf);
      var v := Step(w, events[0], expOf);
      OrdinaryIsHarmless(v, events[1..], expOf);
      SameTimely(v, w.(now := events[0].now), events[1..]);
      hide Harmless, Ordinary, Step;
    }
  }

  lemma {:induction false} OrdinaryStep(w: World, e: Event, expOf: string -> int)
    requires Sorted(w.list) && CoversExp(w.list, expOf) && Ordinary(w, e, expOf)
    ensures Harmless(w, e, expOf) && Sorted(Step(w, e, expOf).list) && CoversExp(Step(w, e, expOf).list, expOf)
  {
    PurgeKeeps(w.list, e.now);
    match e.call
    case DoRevoke(t) => InsertKeeps(Purge(w.list, e.now), Entry(t, expOf(t)));
    case DoCleanup =>
    case DoLoad(entries) => LoadKeeps(w.list, entries);
    case DoSetMax(m) =>
  }

  /** The eviction loses no live entry but possibly the token that is being revoked again. */
  predicate HarmlessRevoke(l: Blacklist, maxEntries: int, t: string, now: int)
  {
    var live := Purge(l, now);
    maxEntries <= 0 || |live| < maxEntries ||
    (|live| == maxEntries && live[Oldest(live, |live|)].token == t)
  }

  /** Exactly when a revocation at capacity keeps the agreement. */
  lemma {:induction false} RevokeAgreesExactly(w: World, t: string, now: int, expOf: string -> int)
    requires Agrees(w.list, w.ideal, w.now, expOf) && CarriesExp(w.list, expOf) && w.now <= now
    requires expOf(t) != 0
    requires forall x :: x in w.list ==> x.expireAt != 0
    ensures var v := Step(w, Event(DoRevoke(t), now), expOf);
            Agrees(v.list, v.ideal, v.now, expOf) <==> HarmlessRevoke(w.list, w.maxEntries, t, now)
  {
    var live := Purge(w.list, now);
    PurgeAgrees(w.list, w.ideal, w.now, now, expOf);
    PurgeKeeps(w.list, now);
    EvictKeeps(live, w.maxEntries);
    var kept := Evict(live, w.maxEntries);
    var e := Entry(t, expOf(t));
    InsertKeeps(kept, e);
    var r := Insert(kept, e);
    if w.maxEntries <= 0 || |live| < w.maxEntries {
      InsertAgrees(live, w.ideal, now, e, expOf);
    } else {
      var o := Oldest(live, |live|);
      EraseKeeps(live, o);
      var rest := Erase(live, o);
      assert kept == Evict(rest, w.maxEntries);
      if |live| == w.maxEntries && live[o].token == t {
        assert kept == rest;
        RevokedAgain(live, o, w.ideal, now, e, expOf);
      } else {
        var victim := FindVictim(live, kept, o, t, w.maxEntries);
        forall x | x in kept ensures x.token != victim.token {
          if x.token == victim.token { SameToken(live, x, victim); }
        }
        assert victim.token in w.ideal && !Listed(r, victim.token);
      }
    }
  }

  lemma SameToken(l: Blacklist, x: Entry, y: Entry)
    requires Sorted(l) && x in l && y in l && x.token == y.token
    ensures x == y
  {
    var i :| 0 <= i < |l| && l[i] == x;
    var j :| 0 <= j < |l| && l[j] == y;
    SortedDistinct(l, i, j);
  }

  lemma RevokedAgain(live: Blacklist, o: nat, ideal: set<string>, now: int, e: Entry, expOf: string -> int)
    requires Agrees(live, ideal, now, expOf) && CoversExp(live, expOf)
    requires o < |live| && live[o].token == e.token && e.expireAt == expOf(e.token)
    ensures Agrees(Insert(Erase(live, o), e), ideal + {e.token}, now, expOf)
  {
    EraseKeeps(live, o);
    var rest := Erase(live, o);
    InsertKeeps(rest, e);
    var r := Insert(rest, e);
    forall u | u in ideal + {e.token} ensures Refused(r, now, u, expOf(u)) {
      if Listed(live, u) && u != e.token {
        var x := ListedIn(live, u);
        assert x in rest;
        InListed(r, x);
      }
    }
  }

  /** When the eviction is not harmless, it drops a live entry of another token. */
  lemma FindVictim(live: Blacklist, kept: Blacklist, o: nat, t: string, maxEntries: int) returns (victim: Entry)
    requires Sorted(live) && maxEntries > 0 && |live| >= maxEntries
    requires o == Oldest(live, |live|) && kept == Evict(live, maxEntries)
    requires !(|live| == maxEntries && live[o].token == t)
    ensures victim in live && victim !in kept && victim.token != t
  {
    EraseKeeps(live, o);
    var rest := Erase(live, o);
    EvictKeeps(rest, maxEntries);
    assert kept == Evict(rest, maxEntries);
    victim := live[o];
    if victim.token == t {
      var o2 := Oldest(rest, |rest|);
      EraseKeeps(rest, o2);
      EvictKeeps(Erase(rest, o2), maxEntries);
      assert kept == Evict(Erase(rest, o2), maxEntries);
      victim := rest[o2];
      if victim.token == t { SameToken(live, victim, live[o]); }
    }
  }

  /** At capacity 1, revoking a second live token makes the first acceptable again. */
  lemma EvictionRevives(expOf: string -> int)
    requires expOf("a") == 10 && expOf("b") == 20
    ensures var v := Run(World([], 1, {}, 0), [Event(DoRevoke("a"), 1), Event(DoRevoke("b"), 2)], expOf);
            "a" in v.ideal && !Refused(v.list, 3, "a", expOf("a"))
  {
    var e1, e2 := Event(DoRevoke("a"), 1), Event(DoRevoke("b"), 2);
    var w0 := World([], 1, {}, 0);
    var w1 := Step(w0, e1, expOf);
    assert w1.list == [Entry("a", 10)];
    assert Purge(w1.list, 2) == w1.list;
    assert Erase(w1.list, 0) == [];
    var w2 := Step(w1, e2, expOf);
    assert w2.list == [Entry("b", 20)];
    assert [e1, e2][1..] == [e2];
    assert Run(w0, [e1, e2], expOf) == Run(w1, [e2], expOf) == Run(w2, [], expOf) == w2;
  }

  /** An entry loaded with an expiry before the token's own is purged while the token is live. */
  lemma ShortLoadRevives(expOf: string -> int)
    requires expOf("a") == 10
    ensures var v := Run(World([], 0, {}, 0), [Event(DoLoad([Entry("a", 5)]), 1), Event(DoCleanup, 5)], expOf);
            "a" in v.ideal && !Refused(v.list, 6, "a", expOf("a"))
  {
    var e1, e2 := Event(DoLoad([Entry("a", 5)]), 1), Event(DoCleanup, 5);
    var w0 := World([], 0, {}, 0);
    var w1 := Step(w0, e1, expOf);
    assert Load([], [Entry("a", 5)]) == Load([Entry("a", 5)], []) == [Entry("a", 5)];
    assert Entry("a", 5) in [Entry("a", 5)];
    assert "a" in w1.ideal;
    var w2 := Step(w1, e2, expOf);
    assert w2.list == [];
    assert [e1, e2][1..] == [e2];
    assert Run(w0, [e1, e2], expOf) == Run(w1, [e2], expOf) == Run(w2, [], expOf) == w2;
  }
}
