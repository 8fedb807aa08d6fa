/** Peer liveness and adoption, from lxmf_hub/failover.py and the adoption table of
    lxmf_hub/store.py. */
module Failover {
  import opened Sorting
  import opened Wrappers
  import opened ByteStrings
  import opened Tables
  import opened Stores

  datatype Status = Live | Stale | Unknown

  datatype FailoverSettings = FailoverSettings(
    peerTimeout: real, syncInterval: real, federation: bool, checkInterval: real,
    notifyClients: bool, notifyIsolation: bool, texts: Texts)

  /** The timeout in force: never under two sync intervals while federation runs. */
  function EffectiveTimeout(s: FailoverSettings): real {
    var floor := 2.0 * s.syncInterval;
    if !s.federation || s.peerTimeout >= floor then s.peerTimeout else floor
  }

  /** What a last answer, if any, says about a peer at `now`. */
  function StatusOf(s: FailoverSettings, startedAt: real, answered: bool, last: real, now: real): Status {
    var timeout := EffectiveTimeout(s);
    if answered && now - last <= timeout then Live
    else if now - startedAt <= timeout then Unknown
    else Stale
  }

  function PeerStatusAt(
    s: FailoverSettings, startedAt: real, success: map<Bytes, real>, peer: Bytes, now: real): Status {
    StatusOf(s, startedAt, peer in success, if peer in success then success[peer] else 0.0, now)
  }

  function StatusesAt(
    s: FailoverSettings, startedAt: real, peers: seq<Bytes>, success: map<Bytes, real>, now: real): map<Bytes, Status>
  {
    map p | p in (set q | q in peers) :: PeerStatusAt(s, startedAt, success, p, now)
  }

  // -- the same, told in times ------------------------------------------------------

  /** Longer than the configured timeout, and than two sync intervals while federation
      runs. */
  ghost predicate TooLong(s: FailoverSettings, since: real, now: real) {
    now - since > s.peerTimeout && (s.federation ==> now - since > 2.0 * s.syncInterval)
  }

  /** The peer answered within that time. */
  ghost predicate HeardLately(s: FailoverSettings, success: map<Bytes, real>, peer: Bytes, now: real) {
    peer in success && !TooLong(s, success[peer], now)
  }

  /** It did not, nor has the hub been up for that long. */
  ghost predicate TooEarlyToTell(
    s: FailoverSettings, startedAt: real, success: map<Bytes, real>, peer: Bytes, now: real)
  {
    !HeardLately(s, success, peer, now) && !TooLong(s, startedAt, now)
  }

  /** It did not, though the hub has been up for that long. */
  ghost predicate GoneSilent(s: FailoverSettings, startedAt: real, success: map<Bytes, real>, peer: Bytes, now: real) {
    !HeardLately(s, success, peer, now) && TooLong(s, startedAt, now)
  }

  lemma StatusInTimes(s: FailoverSettings, startedAt: real, success: map<Bytes, real>, peer: Bytes, now: real)
    ensures PeerStatusAt(s, startedAt, success, peer, now).Live? <==> HeardLately(s, success, peer, now)
    ensures PeerStatusAt(s, startedAt, success, peer, now).Unknown?
        <==> TooEarlyToTell(s, startedAt, success, peer, now)
    ensures PeerStatusAt(s, startedAt, success, peer, now).Stale? <==> GoneSilent(s, startedAt, success, peer, now)
  {
  }

  // -- the ledger of adoptions ------------------------------------------------------

  /** One member of one peer's group. */
  type Client = (Bytes, string, Bytes)

  /** What has been done to a client, and how many notices it was queued for that. */
  datatype Event = Adopted(told: nat) | HandedBack(told: nat)

  type Ledger = map<Client, seq<Event>>

  function Past(l: Ledger, k: Client): seq<Event> {
    if k in l then l[k] else []
  }

  /** Adoption and hand-back alternate, starting with an adoption, and no event was
      announced twice. */
  ghost predicate Alternates(events: seq<Event>) {
    forall i | 0 <= i < |events| :: (events[i].Adopted? <==> i % 2 == 0) && events[i].told <= 1
  }

  /** A client is adopted now exactly when adoptions are one ahead of hand-backs. */
  ghost predicate LedgerValid(d: Desk) {
    forall k :: Alternates(Past(d.ledger, k)) && (k in d.adoptions <==> |Past(d.ledger, k)| % 2 == 1)
  }

  /** The same event noted for each of these clients, and nothing else. */
  ghost function NoteAll(l: Ledger, ks: set<Client>, e: Event): (l': Ledger)
    ensures forall k :: Past(l', k) == if k in ks then Past(l, k) + [e] else Past(l, k)
  {
    map k | k in l.Keys + ks :: if k in ks then Past(l, k) + [e] else l[k]
  }

  function ToldOnce(e: Event): Event {
    if e.Adopted? then Adopted(e.told + 1) else HandedBack(e.told + 1)
  }

  /** Announcing the latest event. */
  function Tell(l: Ledger, k: Client): (l': Ledger) {
    var past := Past(l, k);
    if past == [] then l else l[k := past[..|past| - 1] + [ToldOnce(past[|past| - 1])]]
  }

  ghost predicate Untold(l: Ledger, k: Client) {
    Past(l, k) != [] && Past(l, k)[|Past(l, k)| - 1].told == 0
  }

  // -- commits ------------------------------------------------------------------------

  /** What survives a crash: the adoption table, and the ledger of how it came about. */
  datatype Desk = Desk(adoptions: Adoptions, ledger: Ledger)

  ghost predicate Adopts(d: Desk, d': Desk, ks: set<Client>) {
    ks !! d.adoptions && d' == Desk(d.adoptions + ks, NoteAll(d.ledger, ks, Adopted(0)))
  }

  function AdoptedFor(adoptions: Adoptions, peer: Bytes): set<Client> {
    set k | k in adoptions && k.0 == peer
  }

  ghost predicate HandsBack(d: Desk, d': Desk, peer: Bytes) {
    var ks := AdoptedFor(d.adoptions, peer);
    d' == Desk(d.adoptions - ks, NoteAll(d.ledger, ks, HandedBack(0)))
  }

  ghost predicate Tells(d: Desk, d': Desk, k: Client) {
    Untold(d.ledger, k) && d' == d.(ledger := Tell(d.ledger, k))
  }

  ghost predicate DeskStep(d: Desk, d': Desk) {
    || (exists ks :: Adopts(d, d', ks))
    || (exists peer :: HandsBack(d, d', peer))
    || (exists k :: Tells(d, d', k))
  }

  ghost predicate StepAt(trail: seq<Desk>, n: nat)
    requires n < |trail| - 1
  {
    DeskStep(trail[n], trail[n + 1])
  }

  /** Every commit since the database was made. A restart adds none, and a crash after
      any commit leaves a prefix. */
  ghost predicate Trail(trail: seq<Desk>) {
    && |trail| > 0 && trail[0] == Desk({}, map[])
    && forall n: nat | n < |trail| - 1 :: StepAt(trail, n)
  }

  lemma TrailPrefix(trail: seq<Desk>, n: nat)
    requires Trail(trail) && 0 < n <= |trail|
    ensures Trail(trail[..n])
  {
    forall m: nat | m < n - 1
      ensures StepAt(trail[..n], m)
    {
      assert StepAt(trail, m);
    }
  }

  lemma TrailGrows(trail: seq<Desk>, d: Desk)
    requires Trail(trail) && DeskStep(trail[|trail| - 1], d)
    ensures Trail(trail + [d])
  {
    forall m: nat | m < |trail|
      ensures StepAt(trail + [d], m)
    {
      if m < |trail| - 1 {
        assert StepAt(trail, m);
      }
    }
  }

  lemma AdoptionKeepsLedger(d: Desk, d': Desk, ks: set<Client>)
    requires LedgerValid(d) && Adopts(d, d', ks)
    ensures LedgerValid(d')
  {
    forall k
      ensures Alternates(Past(d'.ledger, k)) && (k in d'.adoptions <==> |Past(d'.ledger, k)| % 2 == 1)
    {
      assert Alternates(Past(d.ledger, k));
    }
  }

  lemma HandBackKeepsLedger(d: Desk, d': Desk, peer: Bytes)
    requires LedgerValid(d) && HandsBack(d, d', peer)
    ensures LedgerValid(d')
  {
    forall k
      ensures Alternates(Past(d'.ledger, k)) && (k in d'.adoptions <==> |Past(d'.ledger, k)| % 2 == 1)
    {
      assert Alternates(Past(d.ledger, k));
    }
  }

  lemma TellKeepsLedger(d: Desk, d': Desk, k: Client)
    requires LedgerValid(d) && Tells(d, d', k)
    ensures LedgerValid(d')
  {
    forall j
      ensures Alternates(Past(d'.ledger, j)) && (j in d'.adoptions <==> |Past(d'.ledger, j)| % 2 == 1)
    {
      assert Alternates(Past(d.ledger, j));
      TellKeepsPast(d.ledger, k, j);
    }
  }

  lemma TellKeepsPast(l: Ledger, k: Client, j: Client)
    requires Alternates(Past(l, j)) && Untold(l, k)
    ensures Alternates(Past(Tell(l, k), j)) && |Past(Tell(l, k), j)| == |Past(l, j)|
  {
    var past, told := Past(l, j), Past(Tell(l, k), j);
    forall i | 0 <= i < |told|
      ensures (told[i].Adopted? <==> i % 2 == 0) && told[i].told <= 1
    {
      assert i < |past| - 1 ==> told[i] == past[i];
    }
  }

  /** After every commit of every run, restarts and crashes included, adoption and
      hand-back have strictly alternated for each client, each announced at most once,
      and the table holds exactly the clients whose last event was an adoption. What a
      crash after that commit leaves is again a trail, so a restart goes on from it. */
  lemma {:induction false} AdoptionsAlternate(trail: seq<Desk>, n: nat)
    requires Trail(trail) && n < |trail|
    ensures LedgerValid(trail[n]) && Trail(trail[..n + 1])
  {
    TrailPrefix(trail, n + 1);
    if n > 0 {
      AdoptionsAlternate(trail, n - 1);
      var d, d' := trail[n - 1], trail[n];
      assert StepAt(trail, n - 1);
      if ks :| Adopts(d, d', ks) {
        AdoptionKeepsLedger(d, d', ks);
      } else if peer :| HandsBack(d, d', peer) {
        HandBackKeepsLedger(d, d', peer);
      } else {
        var k :| Tells(d, d', k);
        TellKeepsLedger(d, d', k);
      }
    }
  }

  // -- who is adopted ------------------------------------------------------------------

  /** A peer's members of the groups served here that are no member here, banned or not. */
  function Adoptable(groups: set<string>, members: Members, theirs: set<Client>, peer: Bytes): set<Client> {
    set k | k in theirs && k.0 == peer && k.1 in groups && (k.1, k.2) !in members
  }

  function AdoptableUsers(group: string, members: Members, theirs: set<Client>, peer: Bytes): set<Bytes> {
    set k | k in theirs && k.0 == peer && k.1 == group && (group, k.2) !in members :: k.2
  }

  lemma UsersAreAdoptable(group: string, members: Members, theirs: set<Client>, peer: Bytes)
    ensures Clients(peer, group, AdoptableUsers(group, members, theirs, peer))
        == Adoptable({group}, members, theirs, peer)
  {
    forall k: Client | k in Adoptable({group}, members, theirs, peer)
      ensures k in Clients(peer, group, AdoptableUsers(group, members, theirs, peer))
    {
      assert k == (peer, group, k.2);
    }
  }

  function Clients(peer: Bytes, group: string, users: set<Bytes>): set<Client> {
    set u | u in users :: (peer, group, u)
  }

  /** A client's past has grown by one event exactly if its adoption changed. */
  ghost predicate Moved(d: Desk, d': Desk) {
    forall k :: PastMoved(Past(d.ledger, k), Past(d'.ledger, k), k in d.adoptions, k in d'.adoptions)
  }

  ghost predicate PastMoved(past: seq<Event>, past': seq<Event>, was: bool, is': bool) {
    if was == is' then past' == past
    else |past'| == |past| + 1 && past'[..|past|] == past && past'[|past|].Adopted? == is'
  }

  /** Only this peer's clients are touched. */
  ghost predicate OthersKept(d: Desk, d': Desk, peer: Bytes) {
    forall k: Client | k.0 != peer ::
      (k in d.adoptions <==> k in d'.adoptions) && Past(d'.ledger, k) == Past(d.ledger, k)
  }

  ghost predicate QueueGrew(q: Queue, q': Queue) {
    forall k | k in q :: k in q' && q'[k] == q[k]
  }

  lemma GrownKeepsPending(q: Queue, q': Queue, recipient: Bytes, about: About)
    requires QueueGrew(q, q') && !about.Reflection? && NoticePending(q, recipient, about)
    ensures NoticePending(q', recipient, about)
  {
    var k :| k in q.Keys && IsNotice(q, k, recipient, about);
    assert k in q'.Keys && IsNotice(q', k, recipient, about);
  }

  /** The text of each notice. */
  datatype Texts = Texts(
    adoption: (Bytes, string) -> string, handback: (Bytes, string) -> string,
    isolation: string -> string, restored: string -> string)

  // -- the engine -----------------------------------------------------------------------

  /** One daemon lifetime's engine; the trail spans lifetimes like the adoption table. */
  class FailoverEngine {
    const store: Store
    const settings: FailoverSettings
    const peers: seq<Bytes>
    const startedAt: real
    var lastCheck: real
    ghost var trail: seq<Desk>

    ghost function Now(): Desk
      reads this
      requires |trail| > 0
    {
      trail[|trail| - 1]
    }

    ghost predicate Valid()
      reads this, store
    {
      store.Valid() && Trail(trail) && Now().adoptions == store.adoptions
    }

    /** A restart: the adoption table is found as the last commit left it. */
    constructor (store: Store, settings: FailoverSettings, peers: seq<Bytes>, now: real, ghost trail: seq<Desk>)
      requires store.Valid() && Trail(trail) && trail[|trail| - 1].adoptions == store.adoptions
      ensures Valid() && this.store == store && this.settings == settings && this.peers == peers
      ensures startedAt == now && this.trail == trail
    {
      this.store, this.settings, this.peers, startedAt, lastCheck, this.trail := store, settings, peers, now, 0.0,
          trail;
    }

    function PeerStatus(peer: Bytes, now: real): Status
      reads store
    {
      PeerStatusAt(settings, startedAt, store.peerSuccess, peer, now)
    }

    ghost method Commit(d: Desk)
      requires Trail(trail) && DeskStep(Now(), d)
      modifies this`trail
      ensures trail == old(trail) + [d] && Trail(trail) && Now() == d
    {
      TrailGrows(trail, d);
      trail := trail + [d];
    }

    /** INSERT OR IGNORE of each, in one commit. */
    method Adopt(peer: Bytes, group: string, users: set<Bytes>) returns (added: set<Bytes>)
      requires Valid()
      modifies this`trail, store`adoptions
      ensures Valid() && old(trail) <= trail
      ensures store.adoptions == old(store.adoptions) + Clients(peer, group, users)
      ensures forall u :: u in added <==> u in users && (peer, group, u) !in old(store.adoptions)
      ensures Adopts(old(Now()), Now(), Clients(peer, group, added))
    {
      added := {};
      var rest := users;
      ghost var before := store.adoptions;
      while rest != {}
        invariant rest <= users && store.Valid() && trail == old(trail)
        invariant forall u :: u in added <==> u in users - rest && (peer, group, u) !in before
        invariant store.adoptions == before + Clients(peer, group, users - rest)
      {
        var u := PickOne(rest);
        rest := rest - {u};
        if (peer, group, u) !in store.adoptions {
          store.adoptions := store.adoptions + {(peer, group, u)};
          added := added + {u};
        }
      }
      ghost var d := Now();
      ghost var ks := Clients(peer, group, added);
      ghost var d' := Desk(d.adoptions + ks, NoteAll(d.ledger, ks, Adopted(0)));
      assert Adopts(d, d', ks);
      Commit(d');
    }

    /** Queue one notice. */
    method Announce(k: Client, body: string, now: real) returns (queued: bool)
      requires Valid() && Untold(Now().ledger, k)
      modifies this`trail, store`queue, store`nextId, store`history
      ensures Valid() && old(trail) <= trail
      ensures queued <==> !NoticePending(old(store.queue), k.2, GroupText(body))
      ensures Now() == if queued then old(Now()).(ledger := Tell(old(Now()).ledger, k)) else old(Now())
      ensures |trail| == |old(trail)| + if queued then 1 else 0
      ensures NoticePending(store.queue, k.2, GroupText(body))
      ensures QueueGrew(old(store.queue), store.queue)
      ensures store.nextId == old(store.nextId) + if queued then 1 else 0
      ensures !queued ==> store.queue == old(store.queue)
    {
      queued := store.Enqueue(Notice, k.1, k.2, GroupText(body), now);
      if queued {
        assert Key(Notice, old(store.nextId)) in store.queue.Keys;
        ghost var d' := Now().(ledger := Tell(Now().ledger, k));
        assert Tells(Now(), d', k);
        Commit(d');
      }
    }

    /** Queue a notice for each of these clients about their latest event: it is pending
        afterwards, and each notice queued is told once, to one client. */
    method AnnounceAll(ks: set<Client>, body: Client -> string, now: real)
      requires Valid() && forall k | k in ks :: Untold(Now().ledger, k)
      modifies this`trail, store`queue, store`nextId, store`history
      ensures Valid() && old(trail) <= trail
      ensures ToldSome(old(Now()), Now(), ks)
      ensures QueueGrew(old(store.queue), store.queue)
      ensures forall k | k in ks :: NoticePending(store.queue, k.2, GroupText(body(k)))
      ensures store.nextId - old(store.nextId) == |trail| - |old(trail)|
    {
      var rest := ks;
      ghost var d0 := Now();
      while rest != {}
        invariant rest <= ks && Valid() && old(trail) <= trail
        invariant ToldSome(d0, Now(), ks - rest)
        invariant QueueGrew(old(store.queue), store.queue)
        invariant AllPending(store.queue, ks - rest, body)
        invariant store.nextId - old(store.nextId) == |trail| - |old(trail)|
      {
        var k := PickOne(rest);
        ghost var d, q := Now(), store.queue;
        var queued := Announce(k, body(k), now);
        ToldOneMore(d0, d, Now(), ks - rest, k);
        OneMorePending(q, store.queue, ks - rest, k, body);
        assert ks - (rest - {k}) == ks - rest + {k};
        rest := rest - {k};
      }
      assert ks - rest == ks;
    }

    method NotifyAdopted(peer: Bytes, group: string, added: set<Bytes>, now: real)
      requires Valid() && forall k | k in Clients(peer, group, added) :: Untold(Now().ledger, k)
      modifies this`trail, store`queue, store`nextId, store`history
      ensures Valid() && old(trail) <= trail
      ensures ToldSome(old(Now()), Now(), Clients(peer, group, added))
      ensures QueueGrew(old(store.queue), store.queue)
      ensures forall u | u in added :: NoticePending(store.queue, u, GroupText(settings.texts.adoption(peer, group)))
    {
      var texts := settings.texts;
      AnnounceAll(Clients(peer, group, added), (k: Client) => texts.adoption(peer, group), now);
      assert forall u | u in added :: (peer, group, u) in Clients(peer, group, added);
    }

    /** One group of an unreachable peer: adopt in one commit, then tell. */
    method AdoptGroup(peer: Bytes, group: string, now: real)
      requires Valid()
      modifies this`trail, store`adoptions, store`queue, store`nextId, store`history
      ensures Valid() && old(trail) <= trail
      ensures GroupsServed(settings, peer, {group}, store.members, store.peerMembers, old(Now()), Now(),
          old(store.queue), store.queue)
    {
      ghost var d := Now();
      var users := AdoptableUsers(group, store.members, store.peerMembers, peer);
      UsersAreAdoptable(group, store.members, store.peerMembers, peer);
      var added := Adopt(peer, group, users);
      ghost var d1, ks := Now(), Clients(peer, group, added);
      AdoptsMoves(d, d1, ks);
      assert ks == store.adoptions - old(store.adoptions);
      if settings.notifyClients && added != {} {
        NotifyAdopted(peer, group, added, now);
        ToldStillMoved(d, d1, Now(), ks);
      }
    }

    /** Serve an unreachable peer's members, for the groups hosted here. */
    method AdoptPeer(peer: Bytes, now: real)
      requires Valid()
      modifies this`trail, store`adoptions, store`queue, store`nextId, store`history
      ensures Valid() && old(trail) <= trail
      ensures GroupsServed(settings, peer, store.groups.Keys, store.members, store.peerMembers, old(Now()), Now(),
          old(store.queue), store.queue)
      ensures OthersKept(old(Now()), Now(), peer)
    {
      var rest := store.groups.Keys;
      ghost var done: set<string>, d0, q0 := {}, Now(), store.queue;
      while rest != {}
        invariant rest <= store.groups.Keys && done == store.groups.Keys - rest && Valid() && old(trail) <= trail
        invariant GroupsServed(settings, peer, done, store.members, store.peerMembers, d0, Now(), q0, store.queue)
      {
        var group := PickOne(rest);
        ghost var d, q := Now(), store.queue;
        AdoptGroup(peer, group, now);
        OneMoreGroup(settings, peer, done, group, store.members, store.peerMembers, d0, d, Now(), q0, q, store.queue);
        rest, done := rest - {group}, done + {group};
      }
      assert done == store.groups.Keys;
      OnlyPeerMoved(d0, Now(), store.groups.Keys, store.members, store.peerMembers, peer);
    }

    /** Hand a recovered peer's members back, in one commit, then tell them. */
    method Release(peer: Bytes, now: real)
      requires Valid()
      modifies this`trail, store`adoptions, store`queue, store`nextId, store`history
      ensures Valid() && old(trail) <= trail
      ensures store.adoptions == old(store.adoptions) - AdoptedFor(old(store.adoptions), peer)
      ensures Moved(old(Now()), Now()) && OthersKept(old(Now()), Now(), peer)
      ensures QueueGrew(old(store.queue), store.queue)
      ensures settings.notifyClients ==> forall k | k in AdoptedFor(old(store.adoptions), peer) ::
        NoticePending(store.queue, k.2, GroupText(settings.texts.handback(peer, k.1)))
      ensures !settings.notifyClients || store.adoptions == old(store.adoptions) ==> store.queue == old(store.queue)
    {
      ghost var d := Now();
      var released := HandBack(peer);
      ghost var d1 := Now();
      HandBackMoves(d, d1, peer);
      if settings.notifyClients && released != {} {
        NotifyReleased(peer, released, now);
        ToldStillMoved(d, d1, Now(), released);
      }
      OnlyPeerReleased(d, Now(), peer);
    }

    /** DELETE of the peer's adoptions, in one commit. */
    method HandBack(peer: Bytes) returns (released: set<Client>)
      requires Valid()
      modifies this`trail, store`adoptions
      ensures Valid() && old(trail) <= trail
      ensures released == AdoptedFor(old(store.adoptions), peer)
      ensures HandsBack(old(Now()), Now(), peer)
    {
      released := AdoptedFor(store.adoptions, peer);
      store.adoptions := store.adoptions - released;
      ghost var d := Now();
      ghost var d' := Desk(d.adoptions - released, NoteAll(d.ledger, released, HandedBack(0)));
      assert HandsBack(d, d', peer);
      Commit(d');
    }

    method NotifyReleased(peer: Bytes, released: set<Client>, now: real)
      requires Valid() && forall k | k in released :: Untold(Now().ledger, k)
      modifies this`trail, store`queue, store`nextId, store`history
      ensures Valid() && old(trail) <= trail
      ensures ToldSome(old(Now()), Now(), released)
      ensures QueueGrew(old(store.queue), store.queue)
      ensures forall k | k in released :: NoticePending(store.queue, k.2, GroupText(settings.texts.handback(peer, k.1)))
    {
      var texts := settings.texts;
      AnnounceAll(released, (k: Client) => texts.handback(peer, k.1), now);
    }

    /** What one check does about one peer. */
    method CheckPeer(peer: Bytes, status: Status, now: real)
      requires Valid()
      modifies this`trail, store`adoptions, store`queue, store`nextId, store`history
      ensures Valid() && old(trail) <= trail
      ensures store.adoptions == Served(status, peer, old(store.adoptions), store.groups.Keys, store.members,
          store.peerMembers)
      ensures Moved(old(Now()), Now()) && OthersKept(old(Now()), Now(), peer)
      ensures QueueGrew(old(store.queue), store.queue)
      ensures !settings.notifyClients || store.adoptions == old(store.adoptions) ==> store.queue == old(store.queue)
    {
      if status.Stale? {
        AdoptPeer(peer, now);
      } else if status.Live? && AdoptedFor(store.adoptions, peer) != {} {
        Release(peer, now);
      }
    }

    method CheckPeers(statuses: map<Bytes, Status>, now: real)
      requires Valid()
      modifies this`trail, store`adoptions, store`queue, store`nextId, store`history
      ensures Valid() && old(trail) <= trail
      ensures PeersServed(settings, statuses, statuses.Keys, store.groups.Keys, store.members, store.peerMembers,
                          old(Now()), Now(), old(store.queue), store.queue)
    {
      var rest := statuses.Keys;
      ghost var done: set<Bytes>, d0, q0 := {}, Now(), store.queue;
      while rest != {}
        invariant rest <= statuses.Keys && done == statuses.Keys - rest && Valid() && old(trail) <= trail
        invariant PeersServed(settings, statuses, done, store.groups.Keys, store.members, store.peerMembers, d0, Now(),
            q0, store.queue)
      {
        var peer := PickOne(rest);
        ghost var d, q := Now(), store.queue;
        CheckPeer(peer, statuses[peer], now);
        OneMorePeer(settings, statuses, done, peer, store.groups.Keys, store.members, store.peerMembers, d0, d, Now(),
            q0, q, store.queue);
        rest, done := rest - {peer}, done + {peer};
      }
      assert done == statuses.Keys;
    }

    /** Judge every peer by one clock reading, then act on it; isolation is only judged
        when no peer is unknown. */
    method Check(now: real) returns (announced: bool)
      requires Valid()
      modifies this`trail, store`adoptions, store`queue, store`nextId, store`history, store`isolated
      ensures Valid() && old(trail) <= trail
      ensures store.adoptions == AfterCheck(
                old(Statuses(now)), (set p | p in peers), old(store.adoptions), store.groups.Keys, store.members,
                    store.peerMembers)
      ensures CheckedByTimes(
        settings, startedAt, peers, old(store.peerSuccess), now, old(store.adoptions), store.adoptions,
        store.groups.Keys, store.members, store.peerMembers)
      ensures IsolatedByTimes(settings, startedAt, peers, old(store.peerSuccess), now, old(store.isolated),
          store.isolated)
      ensures Moved(old(Now()), Now())
      ensures QueueGrew(old(store.queue), store.queue)
      ensures store.isolated ==
              if peers == [] || (exists p | p in peers :: old(PeerStatus(p, now)).Unknown?) then old(store.isolated)
              else |StalePeers(old(Statuses(now)))| == |peers|
      ensures announced <==> store.isolated != old(store.isolated)
      ensures !announced && store.adoptions == old(store.adoptions) ==> store.queue == old(store.queue)
    {
      CheckInTimes(
        settings, startedAt, peers, store.peerSuccess, now, store.adoptions, store.groups.Keys, store.members,
        store.peerMembers);
      IsolationInTimes(settings, startedAt, peers, store.peerSuccess, now, store.isolated);
      announced := CheckStatuses(now);
    }

    method CheckStatuses(now: real) returns (announced: bool)
      requires Valid()
      modifies this`trail, store`adoptions, store`queue, store`nextId, store`history, store`isolated
      ensures Valid() && old(trail) <= trail
      ensures store.adoptions == AfterCheck(
                old(Statuses(now)), (set p | p in peers), old(store.adoptions), store.groups.Keys, store.members,
                    store.peerMembers)
      ensures Moved(old(Now()), Now())
      ensures QueueGrew(old(store.queue), store.queue)
      ensures store.isolated ==
              if peers == [] || (exists p | p in peers :: old(PeerStatus(p, now)).Unknown?) then old(store.isolated)
              else |StalePeers(old(Statuses(now)))| == |peers|
      ensures announced <==> store.isolated != old(store.isolated)
      ensures !announced && store.adoptions == old(store.adoptions) ==> store.queue == old(store.queue)
    {
      var statuses := Statuses(now);
      CheckPeers(statuses, now);
      announced := false;
      assert forall p | p in peers :: p in statuses && statuses[p] == PeerStatus(p, now);
      if forall p | p in statuses.Keys :: !statuses[p].Unknown? {
        announced := CheckIsolation(StalePeers(statuses), now);
      }
    }

    function Statuses(now: real): map<Bytes, Status>
      reads store
    {
      StatusesAt(settings, startedAt, peers, store.peerSuccess, now)
    }

    /** Tell local members when contact with every peer is lost, and when it is back:
        on the change only, and never without peers. */
    method CheckIsolation(stale: set<Bytes>, now: real) returns (announced: bool)
      requires Valid()
      modifies store`isolated, store`queue, store`nextId, store`history
      ensures Valid()
      ensures store.isolated == if peers == [] then old(store.isolated) else |stale| == |peers|
      ensures announced <==> store.isolated != old(store.isolated)
      ensures QueueGrew(old(store.queue), store.queue)
      ensures !announced || !settings.notifyIsolation ==> store.queue == old(store.queue)
      ensures announced && settings.notifyIsolation ==>
        MembersTold(store.queue, LocalMembers(store.groups.Keys, store.members), settings.texts, store.isolated)
      ensures OnlyMembersTold(
        old(store.queue), store.queue, LocalMembers(store.groups.Keys, store.members), settings.texts, store.isolated,
            now)
      ensures announced && settings.notifyIsolation ==>
        forall g, u | g in store.groups && (g, u) in store.members && store.members[(g, u)] != Banned ::
          NoticePending(
            store.queue, u,
            GroupText(if store.isolated then settings.texts.isolation(g) else settings.texts.restored(g)))
      ensures forall k | k in store.queue && k !in old(store.queue) ::
        var row := store.queue[k];
        && k.kind.Notice? && row.group in store.groups && (row.group, row.recipient) in store.members
        && store.members[(row.group, row.recipient)] != Banned
    {
      if peers == [] {
        return false;
      }
      var isolated := |stale| == |peers|;
      if isolated == store.isolated {
        return false;
      }
      store.isolated := isolated;
      if settings.notifyIsolation {
        TellMembers(isolated, now);
      }
      announced := true;
    }

    method TellMembers(isolated: bool, now: real)
      requires store.Valid()
      modifies store`queue, store`nextId, store`history
      ensures store.Valid()
      ensures QueueGrew(old(store.queue), store.queue)
      ensures MembersTold(store.queue, LocalMembers(store.groups.Keys, store.members), settings.texts, isolated)
      ensures OnlyMembersTold(
        old(store.queue), store.queue, LocalMembers(store.groups.Keys, store.members), settings.texts, isolated, now)
    {
      var rest := LocalMembers(store.groups.Keys, store.members);
      ghost var all, done: set<(string, Bytes)> := rest, {};
      while rest != {}
        invariant rest <= all && done == all - rest && store.Valid()
        invariant QueueGrew(old(store.queue), store.queue)
        invariant MembersTold(store.queue, done, settings.texts, isolated)
        invariant OnlyMembersTold(old(store.queue), store.queue, all, settings.texts, isolated, now)
      {
        var m := PickOne(rest);
        ghost var q := store.queue;
        TellMember(m, isolated, now);
        MemberTold(old(store.queue), q, store.queue, all, done, settings.texts, isolated, m, now);
        rest, done := rest - {m}, done + {m};
      }
      assert done == all;
    }

    method TellMember(m: (string, Bytes), isolated: bool, now: real)
      requires store.Valid()
      modifies store`queue, store`nextId, store`history
      ensures store.Valid()
      ensures QueueGrew(old(store.queue), store.queue)
      ensures MembersTold(store.queue, {m}, settings.texts, isolated)
      ensures OnlyMembersTold(old(store.queue), store.queue, {m}, settings.texts, isolated, now)
    {
      var body := IsolationText(settings.texts, isolated, m.0);
      var queued := store.Enqueue(Notice, m.0, m.1, GroupText(body), now);
      if queued {
        var k := Key(Notice, store.nextId - 1);
        assert k in store.queue.Keys && IsolationRow(k, store.queue[k], m, settings.texts, isolated, now);
      }
    }

    /** The periodic entry: checks at most once an interval. */
    method CheckDue(now: real) returns (checked: bool)
      requires Valid()
      modifies this`trail, this`lastCheck, store`adoptions, store`queue, store`nextId, store`history, store`isolated
      ensures Valid() && old(trail) <= trail
      ensures checked <==> now - old(lastCheck) >= settings.checkInterval
      ensures lastCheck == if checked then now else old(lastCheck)
      ensures !checked ==> store.adoptions == old(store.adoptions) && store.queue == old(store.queue)
                           && store.isolated == old(store.isolated) && trail == old(trail)
      ensures checked ==> store.adoptions == AfterCheck(
        old(Statuses(now)), (set p | p in peers), old(store.adoptions), store.groups.Keys, store.members,
            store.peerMembers)
      ensures Moved(old(Now()), Now())
    {
      if now - lastCheck < settings.checkInterval {
        return false;
      }
      lastCheck := now;
      var _ := Check(now);
      checked := true;
    }
  }

  /** Some of these clients have been told of their latest event, nothing else changed. */
  ghost predicate ToldSome(d: Desk, d': Desk, ks: set<Client>) {
    && d'.adoptions == d.adoptions
    && forall k :: Past(d'.ledger, k) == Past(d.ledger, k)
        || (k in ks && Past(d'.ledger, k) == Past(Tell(d.ledger, k), k))
  }

  lemma ToldOneMore(d0: Desk, d: Desk, d': Desk, ks: set<Client>, k: Client)
    requires ToldSome(d0, d, ks) && k !in ks
    requires d' == d || d' == d.(ledger := Tell(d.ledger, k))
    ensures ToldSome(d0, d', ks + {k})
    ensures forall j | j != k :: Past(d'.ledger, j) == Past(d.ledger, j)
  {
  }

  lemma AdoptsMoves(d: Desk, d': Desk, ks: set<Client>)
    requires Adopts(d, d', ks)
    ensures Moved(d, d') && forall k | k in ks :: Untold(d'.ledger, k)
  {
  }

  lemma HandBackMoves(d: Desk, d': Desk, peer: Bytes)
    requires HandsBack(d, d', peer)
    ensures Moved(d, d') && forall k | k in AdoptedFor(d.adoptions, peer) :: Untold(d'.ledger, k)
  {
  }

  /** Telling of a change does not make it another one. */
  lemma ToldStillMoved(d: Desk, d1: Desk, d2: Desk, ks: set<Client>)
    requires Moved(d, d1) && ToldSome(d1, d2, ks)
    requires forall k | k in ks :: (k in d.adoptions) != (k in d1.adoptions)
    ensures Moved(d, d2)
  {
    forall k
      ensures PastMoved(Past(d.ledger, k), Past(d2.ledger, k), k in d.adoptions, k in d2.adoptions)
    {
      assert PastMoved(Past(d.ledger, k), Past(d1.ledger, k), k in d.adoptions, k in d1.adoptions);
    }
  }

  lemma OnlyPeerReleased(d: Desk, d': Desk, peer: Bytes)
    requires Moved(d, d') && d'.adoptions == d.adoptions - AdoptedFor(d.adoptions, peer)
    ensures OthersKept(d, d', peer)
  {
    forall k: Client | k.0 != peer
      ensures Past(d'.ledger, k) == Past(d.ledger, k)
    {
      assert PastMoved(Past(d.ledger, k), Past(d'.ledger, k), k in d.adoptions, k in d'.adoptions);
    }
  }

  ghost predicate AllPending(q: Queue, ks: set<Client>, body: Client -> string) {
    forall k | k in ks :: NoticePending(q, k.2, GroupText(body(k)))
  }

  lemma OneMorePending(q: Queue, q': Queue, ks: set<Client>, k: Client, body: Client -> string)
    requires AllPending(q, ks, body) && QueueGrew(q, q') && NoticePending(q', k.2, GroupText(body(k)))
    ensures AllPending(q', ks + {k}, body)
  {
    forall j | j in ks
      ensures NoticePending(q', j.2, GroupText(body(j)))
    {
      GrownKeepsPending(q, q', j.2, GroupText(body(j)));
    }
  }

  ghost predicate Announced(texts: Texts, peer: Bytes, ks: set<Client>, q: Queue) {
    forall k: Client | k in ks :: NoticePending(q, k.2, GroupText(texts.adoption(peer, k.1)))
  }

  /** The queue only grew: by nothing if there was nothing to say, and otherwise so
      that each new adoption has its notice pending. */
  ghost predicate Reported(s: FailoverSettings, peer: Bytes, a: Adoptions, a': Adoptions, q: Queue, q': Queue) {
    && QueueGrew(q, q')
    && (s.notifyClients ==> Announced(s.texts, peer, a' - a, q'))
    && (!s.notifyClients || a' == a ==> q' == q)
  }

  lemma ReportedMore(
    s: FailoverSettings, peer: Bytes, a0: Adoptions, a1: Adoptions, a2: Adoptions, q0: Queue, q1: Queue, q2: Queue)
    requires Reported(s, peer, a0, a1, q0, q1) && Reported(s, peer, a1, a2, q1, q2) && a0 <= a1 <= a2
    ensures Reported(s, peer, a0, a2, q0, q2)
  {
    forall k: Client | s.notifyClients && k in a1 - a0
      ensures NoticePending(q2, k.2, GroupText(s.texts.adoption(peer, k.1)))
    {
      GrownKeepsPending(q1, q2, k.2, GroupText(s.texts.adoption(peer, k.1)));
    }
  }

  /** These groups' members have been adopted from the peer, each noted once and, where
      wanted, with its notice pending. */
  ghost predicate GroupsServed(
    s: FailoverSettings, peer: Bytes, groups: set<string>, members: Members, theirs: set<Client>, d: Desk, d': Desk,
    q: Queue, q': Queue)
  {
    && d'.adoptions == d.adoptions + Adoptable(groups, members, theirs, peer)
    && Moved(d, d')
    && Reported(s, peer, d.adoptions, d'.adoptions, q, q')
  }

  lemma OneMoreGroup(
    s: FailoverSettings, peer: Bytes, done: set<string>, group: string, members: Members, theirs: set<Client>,
    d0: Desk, d: Desk, d': Desk, q0: Queue, q: Queue, q': Queue)
    requires GroupsServed(s, peer, done, members, theirs, d0, d, q0, q)
    requires GroupsServed(s, peer, {group}, members, theirs, d, d', q, q')
    ensures GroupsServed(s, peer, done + {group}, members, theirs, d0, d', q0, q')
  {
    AdoptableSplits(done, group, members, theirs, peer);
    MovedMore(d0, d, d');
    ReportedMore(s, peer, d0.adoptions, d.adoptions, d'.adoptions, q0, q, q');
  }

  lemma OnlyPeerMoved(d: Desk, d': Desk, groups: set<string>, members: Members, theirs: set<Client>, peer: Bytes)
    requires Moved(d, d') && d'.adoptions == d.adoptions + Adoptable(groups, members, theirs, peer)
    ensures OthersKept(d, d', peer)
  {
    forall k: Client | k.0 != peer
      ensures Past(d'.ledger, k) == Past(d.ledger, k)
    {
      assert PastMoved(Past(d.ledger, k), Past(d'.ledger, k), k in d.adoptions, k in d'.adoptions);
    }
  }

  lemma AdoptableSplits(done: set<string>, group: string, members: Members, theirs: set<Client>, peer: Bytes)
    ensures Adoptable(done + {group}, members, theirs, peer)
            == Adoptable(done, members, theirs, peer) + Adoptable({group}, members, theirs, peer)
  {
  }

  /** Changes to different clients add up. */
  lemma MovedTwice(d0: Desk, d1: Desk, d2: Desk)
    requires Moved(d0, d1) && Moved(d1, d2)
    requires forall k :: (k in d0.adoptions) == (k in d1.adoptions) || (k in d1.adoptions) == (k in d2.adoptions)
    ensures Moved(d0, d2)
  {
    forall k
      ensures PastMoved(Past(d0.ledger, k), Past(d2.ledger, k), k in d0.adoptions, k in d2.adoptions)
    {
      assert PastMoved(Past(d0.ledger, k), Past(d1.ledger, k), k in d0.adoptions, k in d1.adoptions);
      assert PastMoved(Past(d1.ledger, k), Past(d2.ledger, k), k in d1.adoptions, k in d2.adoptions);
    }
  }

  lemma MovedMore(d0: Desk, d1: Desk, d2: Desk)
    requires Moved(d0, d1) && Moved(d1, d2) && d0.adoptions <= d1.adoptions <= d2.adoptions
    ensures Moved(d0, d2)
  {
    MovedTwice(d0, d1, d2);
  }

  /** The adoptions one peer's status leaves. */
  function Served(
    status: Status, peer: Bytes, before: Adoptions, groups: set<string>, members: Members,
    theirs: set<Client>): Adoptions {
    match status
    case Live => before - AdoptedFor(before, peer)
    case Stale => before + Adoptable(groups, members, theirs, peer)
    case Unknown => before
  }

  /** Whether a client is adopted once these peers have been dealt with. */
  predicate ServedAfter(
    statuses: map<Bytes, Status>, done: set<Bytes>, before: Adoptions, groups: set<string>, members: Members,
    theirs: set<Client>, k: Client)
  {
    if k.0 !in done || k.0 !in statuses then k in before
    else match statuses[k.0]
      case Live => false
      case Stale => k in before || k in Adoptable(groups, members, theirs, k.0)
      case Unknown => k in before
  }

  function AfterCheck(
    statuses: map<Bytes, Status>, done: set<Bytes>, before: Adoptions, groups: set<string>, members: Members,
    theirs: set<Client>): Adoptions
  {
    set k | k in before + theirs && ServedAfter(statuses, done, before, groups, members, theirs, k)
  }

  lemma ServedNext(
    statuses: map<Bytes, Status>, done: set<Bytes>, peer: Bytes, before: Adoptions, groups: set<string>,
    members: Members, theirs: set<Client>)
    requires peer in statuses && peer !in done
    ensures AfterCheck(statuses, done + {peer}, before, groups, members, theirs)
            == Served(statuses[peer], peer, AfterCheck(statuses, done, before, groups, members, theirs), groups,
                members, theirs)
    ensures forall k: Client | k.0 == peer ::
      k in AfterCheck(statuses, done, before, groups, members, theirs) <==> k in before
  {
  }

  /** These peers have been dealt with by their status, and a check that changes no
      adoption queues nothing. */
  ghost predicate PeersServed(
    s: FailoverSettings, statuses: map<Bytes, Status>, done: set<Bytes>, groups: set<string>, members: Members,
    theirs: set<Client>,
    d: Desk, d': Desk, q: Queue, q': Queue)
  {
    && d'.adoptions == AfterCheck(statuses, done, d.adoptions, groups, members, theirs)
    && Moved(d, d') && QueueGrew(q, q')
    && (!s.notifyClients || d'.adoptions == d.adoptions ==> q' == q)
  }

  lemma OneMorePeer(
    s: FailoverSettings, statuses: map<Bytes, Status>, done: set<Bytes>, peer: Bytes, groups: set<string>,
    members: Members,
    theirs: set<Client>, d0: Desk, d: Desk, d': Desk, q0: Queue, q: Queue, q': Queue)
    requires peer in statuses && peer !in done
    requires PeersServed(s, statuses, done, groups, members, theirs, d0, d, q0, q)
    requires d'.adoptions == Served(statuses[peer], peer, d.adoptions, groups, members, theirs)
    requires Moved(d, d') && OthersKept(d, d', peer) && QueueGrew(q, q')
    requires !s.notifyClients || d'.adoptions == d.adoptions ==> q' == q
    ensures PeersServed(s, statuses, done + {peer}, groups, members, theirs, d0, d', q0, q')
  {
    ServedNext(statuses, done, peer, d0.adoptions, groups, members, theirs);
    PeersApart(d0, d, d', peer);
  }

  lemma PeersApart(d0: Desk, d1: Desk, d2: Desk, peer: Bytes)
    requires Moved(d0, d1) && Moved(d1, d2) && OthersKept(d1, d2, peer)
    requires forall k: Client | k.0 == peer :: k in d1.adoptions <==> k in d0.adoptions
    ensures Moved(d0, d2)
    ensures d2.adoptions == d0.adoptions ==> d1.adoptions == d0.adoptions
  {
    MovedTwice(d0, d1, d2);
  }

  function StalePeers(statuses: map<Bytes, Status>): set<Bytes> {
    set p | p in statuses.Keys && statuses[p].Stale?
  }

  function LocalMembers(groups: set<string>, members: Members): set<(string, Bytes)> {
    set m | m in members.Keys && m.0 in groups && !members[m].Banned?
  }

  function IsolationText(texts: Texts, isolated: bool, group: string): string {
    if isolated then texts.isolation(group) else texts.restored(group)
  }

  ghost predicate IsolationRow(k: Key, row: Row, m: (string, Bytes), texts: Texts, isolated: bool, now: real) {
    k.kind.Notice? && row == Row(m.0, m.1, GroupText(IsolationText(texts, isolated, m.0)), 0, 0, now)
  }

  /** The isolation notice is pending for each of these members. */
  ghost predicate MembersTold(q: Queue, ms: set<(string, Bytes)>, texts: Texts, isolated: bool) {
    forall m | m in ms :: NoticePending(q, m.1, GroupText(IsolationText(texts, isolated, m.0)))
  }

  /** Whatever was queued is such a notice to such a member. */
  ghost predicate OnlyMembersTold(
    q: Queue, q': Queue, ms: set<(string, Bytes)>, texts: Texts, isolated: bool, now: real) {
    forall k | k in q' && k !in q :: exists m :: m in ms && IsolationRow(k, q'[k], m, texts, isolated, now)
  }

  lemma MemberTold(
    q0: Queue, q: Queue, q': Queue, all: set<(string, Bytes)>, done: set<(string, Bytes)>, texts: Texts, isolated: bool,
    m: (string, Bytes), now: real)
    requires MembersTold(q, done, texts, isolated) && OnlyMembersTold(q0, q, all, texts, isolated, now)
    requires QueueGrew(q, q') && m in all
    requires MembersTold(q', {m}, texts, isolated) && OnlyMembersTold(q, q', {m}, texts, isolated, now)
    ensures MembersTold(q', done + {m}, texts, isolated) && OnlyMembersTold(q0, q', all, texts, isolated, now)
  {
    forall n | n in done
      ensures NoticePending(q', n.1, GroupText(IsolationText(texts, isolated, n.0)))
    {
      GrownKeepsPending(q, q', n.1, GroupText(IsolationText(texts, isolated, n.0)));
    }
  }

  /** A check changes nothing about a peer it cannot judge, releases nobody from a peer
      that is not live, and adopts nobody from a peer that is not stale. */
  lemma UnknownChangesNothing(
    statuses: map<Bytes, Status>, d: Desk, d': Desk, groups: set<string>, members: Members, theirs: set<Client>,
    k: Client)
    requires Moved(d, d') && d'.adoptions == AfterCheck(statuses, statuses.Keys, d.adoptions, groups, members, theirs)
    ensures k.0 !in statuses || statuses[k.0].Unknown? ==>
      (k in d'.adoptions <==> k in d.adoptions) && Past(d'.ledger, k) == Past(d.ledger, k)
    ensures k in d'.adoptions && k !in d.adoptions ==>
      k.0 in statuses && statuses[k.0].Stale? && k in theirs && k.1 in groups && (k.1, k.2) !in members
    ensures k in d.adoptions && k !in d'.adoptions ==> k.0 in statuses && statuses[k.0].Live?
  {
    assert PastMoved(Past(d.ledger, k), Past(d'.ledger, k), k in d.adoptions, k in d'.adoptions);
  }

  /** What a check leaves, told in times. Whoever can be adopted from a peer gone silent is
      adopted, and stays so; nobody is from a peer heard lately; and of any other client
      the adoption is as it was. */
  ghost predicate CheckedByTimes(
    s: FailoverSettings, startedAt: real, peers: seq<Bytes>, success: map<Bytes, real>, now: real,
    before: Adoptions, after: Adoptions, groups: set<string>, members: Members, theirs: PeerMembers)
  {
    && (forall k: Client | k.0 in peers && GoneSilent(s, startedAt, success, k.0, now) ::
          k in after <==> k in before || (k in theirs && k.1 in groups && (k.1, k.2) !in members))
    && (forall k: Client | k.0 in peers && HeardLately(s, success, k.0, now) :: k !in after)
    && (forall k: Client | k.0 !in peers || TooEarlyToTell(s, startedAt, success, k.0, now) ::
          k in after <==> k in before)
  }

  lemma CheckInTimes(
    s: FailoverSettings, startedAt: real, peers: seq<Bytes>, success: map<Bytes, real>, now: real,
    before: Adoptions, groups: set<string>, members: Members, theirs: PeerMembers)
    ensures CheckedByTimes(
      s, startedAt, peers, success, now, before,
      AfterCheck(StatusesAt(s, startedAt, peers, success, now), (set p | p in peers), before, groups, members, theirs),
      groups, members, theirs)
  {
    forall p
      ensures PeerStatusAt(s, startedAt, success, p, now).Live? <==> HeardLately(s, success, p, now)
      ensures PeerStatusAt(s, startedAt, success, p, now).Unknown? <==> TooEarlyToTell(s, startedAt, success, p, now)
      ensures PeerStatusAt(s, startedAt, success, p, now).Stale? <==> GoneSilent(s, startedAt, success, p, now)
    {
      StatusInTimes(s, startedAt, success, p, now);
    }
  }

  /** Isolation, told in times: with peers listed once each and none too early to tell, the
      hub is isolated exactly when every one has gone silent; otherwise it stays as it was. */
  ghost predicate IsolatedByTimes(
    s: FailoverSettings, startedAt: real, peers: seq<Bytes>, success: map<Bytes, real>, now: real, was: bool, is': bool)
  {
    var unsure := exists p :: p in peers && TooEarlyToTell(s, startedAt, success, p, now);
    && (peers == [] || unsure ==> is' == was)
    && (Distinct(peers) && peers != [] && !unsure ==>
          (is' <==> forall p | p in peers :: GoneSilent(s, startedAt, success, p, now)))
  }

  lemma IsolationInTimes(
    s: FailoverSettings, startedAt: real, peers: seq<Bytes>, success: map<Bytes, real>, now: real, was: bool)
    ensures
      var statuses := StatusesAt(s, startedAt, peers, success, now);
      var unknown := exists p | p in peers :: PeerStatusAt(s, startedAt, success, p, now).Unknown?;
      IsolatedByTimes(
        s, startedAt, peers, success, now, was,
        if peers == [] || unknown then was else |StalePeers(statuses)| == |peers|)
  {
    var statuses := StatusesAt(s, startedAt, peers, success, now);
    forall p
      ensures PeerStatusAt(s, startedAt, success, p, now).Unknown? <==> TooEarlyToTell(s, startedAt, success, p, now)
      ensures PeerStatusAt(s, startedAt, success, p, now).Stale? <==> GoneSilent(s, startedAt, success, p, now)
    {
      StatusInTimes(s, startedAt, success, p, now);
    }
    if Distinct(peers) {
      IsolatedWhenAllStale(peers, statuses);
    }
  }

  /** With peers listed once each, the hub is isolated when every one of them is stale. */
  lemma IsolatedWhenAllStale(peers: seq<Bytes>, statuses: map<Bytes, Status>)
    requires Distinct(peers) && statuses.Keys == set p | p in peers
    ensures |StalePeers(statuses)| == |peers| <==> forall p | p in peers :: statuses[p].Stale?
  {
    DistinctSize(peers);
    SubsetSame(StalePeers(statuses), statuses.Keys);
    assert StalePeers(statuses) == statuses.Keys <==> forall p | p in peers :: statuses[p].Stale?;
  }

  // -- a lifetime of checks --------------------------------------------------------------

  /** What checks look at and change, in one daemon lifetime. */
  datatype Watch = Watch(now: real, success: map<Bytes, real>, adoptions: Adoptions)

  /** A federation round that this peer answered. */
  ghost predicate Answers(w: Watch, w': Watch, peer: Bytes, t: real) {
    t >= w.now && w' == Watch(t, w.success[peer := t], w.adoptions)
  }

  /** A check, over whatever groups and members there are by then. */
  ghost predicate Checks(
    s: FailoverSettings, startedAt: real, peers: seq<Bytes>, w: Watch, w': Watch, t: real,
    groups: set<string>, members: Members, theirs: set<Client>)
  {
    && t >= w.now
    && w' == Watch(t, w.success,
         AfterCheck(StatusesAt(s, startedAt, peers, w.success, t), (set p | p in peers), w.adoptions, groups, members,
             theirs))
  }

  ghost predicate WatchStep(s: FailoverSettings, startedAt: real, peers: seq<Bytes>, w: Watch, w': Watch) {
    || (exists peer, t :: Answers(w, w', peer, t))
    || (exists t, groups, members, theirs :: Checks(s, startedAt, peers, w, w', t, groups, members, theirs))
  }

  ghost predicate WatchedAt(s: FailoverSettings, startedAt: real, peers: seq<Bytes>, run: seq<Watch>, n: nat)
    requires n < |run| - 1
  {
    WatchStep(s, startedAt, peers, run[n], run[n + 1])
  }

  ghost predicate Lifetime(s: FailoverSettings, startedAt: real, peers: seq<Bytes>, run: seq<Watch>) {
    && |run| > 0 && run[0].now == startedAt
    && forall n: nat | n < |run| - 1 :: WatchedAt(s, startedAt, peers, run, n)
  }

  /** When the peer last answered in this lifetime, or else the start. */
  function LastHeard(startedAt: real, w: Watch, peer: Bytes): real {
    if peer in w.success && w.success[peer] >= startedAt then w.success[peer] else startedAt
  }

  /** The peer answers at least every two sync intervals, counted from startup: nothing
      happens later than that after its last answer. */
  ghost predicate NeverSilent(s: FailoverSettings, startedAt: real, run: seq<Watch>, peer: Bytes) {
    forall n: nat | n < |run| - 1 :: HeardInTime(s, startedAt, run, peer, n)
  }

  ghost predicate HeardInTime(s: FailoverSettings, startedAt: real, run: seq<Watch>, peer: Bytes, n: nat)
    requires n < |run| - 1
  {
    run[n + 1].now <= LastHeard(startedAt, run[n], peer) + 2.0 * s.syncInterval
  }

  /** A peer heard of within two sync intervals is not stale, whatever the timeout. */
  lemma SteadyPeerNeverStale(s: FailoverSettings, startedAt: real, w: Watch, peer: Bytes, t: real)
    requires s.federation && t <= LastHeard(startedAt, w, peer) + 2.0 * s.syncInterval
    ensures PeerStatusAt(s, startedAt, w.success, peer, t) != Stale
  {
  }

  /** A peer answering at least every two sync intervals from startup is never adopted
      from, over any lifetime of checks. */
  lemma {:induction false} SteadyPeerNeverAdopted(
    s: FailoverSettings, startedAt: real, peers: seq<Bytes>, run: seq<Watch>, peer: Bytes, n: nat, k: Client)
    requires s.federation && Lifetime(s, startedAt, peers, run) && NeverSilent(s, startedAt, run, peer)
    requires n < |run| && k.0 == peer && k in run[n].adoptions
    ensures k in run[0].adoptions
  {
    if n > 0 {
      var w, w' := run[n - 1], run[n];
      assert WatchedAt(s, startedAt, peers, run, n - 1) && HeardInTime(s, startedAt, run, peer, n - 1);
      SteadyPeerNeverStale(s, startedAt, w, peer, w'.now);
      assert k in w.adoptions;
      SteadyPeerNeverAdopted(s, startedAt, peers, run, peer, n - 1, k);
    }
  }

  /** Over any lifetime: after a check later than the timeout, and than two sync intervals,
      past both startup and a peer's last answer, whoever can be adopted from it is; after one
      within either of its last answer nobody is; and after one within either of startup,
      with no such answer, its clients are as they were. */
  lemma ChecksFollowSilence(
    s: FailoverSettings, startedAt: real, peers: seq<Bytes>, run: seq<Watch>, n: nat, t: real,
    groups: set<string>, members: Members, theirs: PeerMembers, k: Client)
    requires Lifetime(s, startedAt, peers, run) && n < |run| - 1 && k.0 in peers
    requires Checks(s, startedAt, peers, run[n], run[n + 1], t, groups, members, theirs)
    ensures
      var w, w' := run[n], run[n + 1];
      var limit := if s.federation && 2.0 * s.syncInterval > s.peerTimeout then 2.0 * s.syncInterval else s.peerTimeout;
      var heard := k.0 in w.success && t - w.success[k.0] <= limit;
      && (t - startedAt > limit && !heard && k in theirs && k.1 in groups && (k.1, k.2) !in members ==>
            k in w'.adoptions)
      && (heard ==> k !in w'.adoptions)
      && (t - startedAt <= limit && !heard ==> (k in w'.adoptions <==> k in w.adoptions))
  {
    CheckInTimes(s, startedAt, peers, run[n].success, t, run[n].adoptions, groups, members, theirs);
  }
}
