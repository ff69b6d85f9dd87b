/**
 From acknowledgement to confirmation: a sent move stays in the queue until the
 confirmed base holds it (chips-client/src/lib/chipsSettling.ts,
 confirmedBase.ts, moveKey.ts; the refresh and clock effects of src/App.tsx).

 A poll is served, then merged into the base, and only later does React run the
 queue update it scheduled; polls overlap freely.
 */
module ChipsSettling {
  import opened Wrappers
  import opened ChipsEngine
  import opened ChipsQueue
  import opened ChipsOrder
  import opened ChipsCredit
  import opened ChipsPending
  import opened ChipsCopies
  import opened ChipsRetire

  const SETTLE_TTL_MS: nat := 630_000

  /** The identity a move has on chain; table and author are folded in. */
  datatype MoveKey =
    | BankKey(table: nat, author: nat, ms: nat, nonce: nat)
    | DipKey(table: nat, author: nat, ms: nat)
    | TipKey(table: nat, author: nat, ms: nat)
    | BrokeKey(table: nat, author: nat, ms: nat)
    | BurnKey(table: nat, author: nat, ms: nat)
    | SpendKey(table: nat, author: nat, ability: string)
    | BuyKey(table: nat, author: nat, key: Jar, ms: nat)
    | NoKey

  function KeyOf(m: QMove): MoveKey {
    match m.what
    case Bank(chips) => if |chips| == 1 then BankKey(m.table, m.author, chips[0].ms, chips[0].nonce) else NoKey
    case Dip(_) => DipKey(m.table, m.author, m.ms)
    case Tip(_) => TipKey(m.table, m.author, m.ms)
    case Broke(_) => BrokeKey(m.table, m.author, m.ms)
    case Burn(_) => BurnKey(m.table, m.author, m.ms)
    case Spend(ability, _) => SpendKey(m.table, m.author, ability)
    case Buy(key) => BuyKey(m.table, m.author, key, m.ms)
    case Oversize => NoKey
    case Unparsed => NoKey
  }

  /** Two queued moves that can be sent have one key exactly when they are one move: same verb, table and identity, and the same mark. */
  lemma SameKeyIff(a: QMove, b: QMove)
    requires Submittable(a) && Submittable(b)
    ensures KeyOf(a) == KeyOf(b) <==>
            && a.table == b.table && a.author == b.author
            && match (a.what, b.what)
               case (Bank(x), Bank(y)) => x[0].ms == y[0].ms && x[0].nonce == y[0].nonce
               case (Dip(_), Dip(_)) => a.ms == b.ms
               case (Tip(_), Tip(_)) => a.ms == b.ms
               case (Broke(_), Broke(_)) => a.ms == b.ms
               case (Burn(_), Burn(_)) => a.ms == b.ms
               case (Spend(x, _), Spend(y, _)) => x == y
               case (Buy(x), Buy(y)) => x == y && a.ms == b.ms
               case _ => false
  {
  }

  // ------------------------------------------------------------------ what the chain shows

  /** Keys a reply proves for its author; only banks, buys, dips and tips are recognised. */
  ghost predicate Proves(r: Reply, table: nat, author: nat, k: MoveKey) {
    && r.author == author
    && match r.move
       case Bank(chips) => exists i :: 0 <= i < |chips| && k == BankKey(table, author, chips[i].ms, chips[i].nonce)
       case Buy(key) => k == BuyKey(table, author, key, r.ms)
       case Dip(_) => k == DipKey(table, author, r.ms)
       case Tip(_) => k == TipKey(table, author, r.ms)
       case _ => false
  }

  function ChipKeys(chips: seq<Chip>, table: nat, author: nat): set<MoveKey> {
    set i | 0 <= i < |chips| :: BankKey(table, author, chips[i].ms, chips[i].nonce)
  }

  function KeysOfReply(r: Reply, table: nat, author: nat): set<MoveKey> {
    if r.author != author then {}
    else
      match r.move
      case Bank(chips) => ChipKeys(chips, table, author)
      case Buy(key) => {BuyKey(table, author, key, r.ms)}
      case Dip(_) => {DipKey(table, author, r.ms)}
      case Tip(_) => {TipKey(table, author, r.ms)}
      case _ => {}
  }

  /** Collects the keys of a poll; exactly the keys some reply of it proves. */
  method ConfirmedMoveKeys(replies: seq<Reply>, table: nat, author: nat) returns (keys: set<MoveKey>)
    ensures keys == PollKeys(replies, table, author)
    ensures forall k :: k in keys <==> exists i :: 0 <= i < |replies| && Proves(replies[i], table, author, k)
  {
    keys := {};
    for i := 0 to |replies|
      invariant keys == PollKeys(replies[..i], table, author)
    {
      assert replies[..i + 1][..i] == replies[..i];
      keys := keys + KeysOfReply(replies[i], table, author);
    }
    assert replies[..|replies|] == replies;
    PollKeysAre(replies, table, author);
  }

  function PollKeys(replies: seq<Reply>, table: nat, author: nat): set<MoveKey> {
    if replies == [] then {}
    else PollKeys(replies[..|replies| - 1], table, author) + KeysOfReply(replies[|replies| - 1], table, author)
  }

  lemma {:induction false} PollKeysAre(replies: seq<Reply>, table: nat, author: nat)
    ensures forall k :: k in PollKeys(replies, table, author) <==>
                        exists i :: 0 <= i < |replies| && Proves(replies[i], table, author, k)
    decreases |replies|
  {
    if replies != [] {
      var n := |replies| - 1;
      PollKeysAre(replies[..n], table, author);
      forall k
        ensures k in PollKeys(replies, table, author) <==> exists i :: 0 <= i < |replies| && Proves(replies[i], table, author, k)
      {
        if k in PollKeys(replies[..n], table, author) {
          var i :| 0 <= i < n && Proves(replies[..n][i], table, author, k);
          assert Proves(replies[i], table, author, k);
        }
        if i :| 0 <= i < |replies| && Proves(replies[i], table, author, k) {
          assert i < n ==> Proves(replies[..n][i], table, author, k);
        }
      }
    }
  }

  // ------------------------------------------------------------------ the base only grows

  /** The keys of the verification map: a chip's proof, or a reply's content id. */
  datatype VKey = ProofOf(ms: nat, nonce: nat) | ContentOf(cid: nat)

  /** The confirmed replies and the verification results kept with them. */
  datatype Base = Base(replies: seq<Reply>, verified: map<VKey, nat>)

  const EMPTY_BASE: Base := Base([], map[])

  predicate KnownCid(base: seq<Reply>, cid: nat) {
    exists i | 0 <= i < |base| :: base[i].cid == cid
  }

  /** Replies of the poll the base does not have yet. */
  function Unknown(base: seq<Reply>, incoming: seq<Reply>): seq<Reply> {
    if incoming == [] then []
    else (if KnownCid(base, incoming[0].cid) then [] else [incoming[0]]) + Unknown(base, incoming[1..])
  }

  /** Copies a verification result for each new reply, looked up by content id. */
  function CopyVerified(known: map<VKey, nat>, new_: seq<Reply>, verified: map<VKey, nat>): map<VKey, nat> {
    if new_ == [] then known
    else
      var n := |new_| - 1;
      var k := CopyVerified(known, new_[..n], verified);
      if ContentOf(new_[n].cid) in verified then k[ContentOf(new_[n].cid) := verified[ContentOf(new_[n].cid)]] else k
  }

  function Merge(base: Base, incoming: seq<Reply>, verified: map<VKey, nat>): Base {
    var more := Unknown(base.replies, incoming);
    if more == [] then base else Base(base.replies + more, CopyVerified(base.verified, more, verified))
  }

  /** The loop of the merge computes exactly that. */
  method MergeConfirmed(base: Base, incoming: seq<Reply>, verified: map<VKey, nat>) returns (r: Base)
    ensures r == Merge(base, incoming, verified)
  {
    var more := Unknown(base.replies, incoming);
    if more == [] {
      return base;
    }
    var next := base.verified;
    for i := 0 to |more|
      invariant next == CopyVerified(base.verified, more[..i], verified)
    {
      assert more[..i + 1][..i] == more[..i];
      if ContentOf(more[i].cid) in verified {
        next := next[ContentOf(more[i].cid) := verified[ContentOf(more[i].cid)]];
      }
    }
    assert more[..|more|] == more;
    r := Base(base.replies + more, next);
  }

  /** What verification returns: the true bits of every chip of the owner's banks, keyed by proof. */
  function VerifyReplies(bits: (nat, nat) -> nat, replies: seq<Reply>, owner: nat): map<VKey, nat> {
    if replies == [] then map[]
    else
      var n := |replies| - 1;
      var out := VerifyReplies(bits, replies[..n], owner);
      if replies[n].author == owner && replies[n].move.Bank? then VerifyChips(bits, replies[n].move.chips, out) else out
  }

  function VerifyChips(bits: (nat, nat) -> nat, chips: seq<Chip>, out: map<VKey, nat>): map<VKey, nat> {
    if chips == [] then out
    else
      var n := |chips| - 1;
      VerifyChips(bits, chips[..n], out)[ProofOf(chips[n].ms, chips[n].nonce) := bits(chips[n].ms, chips[n].nonce)]
  }

  lemma {:induction false} VerifyChipsHolds(bits: (nat, nat) -> nat, chips: seq<Chip>, out: map<VKey, nat>)
    requires forall k <- out :: k.ProofOf? && out[k] == bits(k.ms, k.nonce)
    ensures forall k <- VerifyChips(bits, chips, out) :: k.ProofOf? && VerifyChips(bits, chips, out)[k] == bits(k.ms, k.nonce)
    ensures forall i | 0 <= i < |chips| :: ProofOf(chips[i].ms, chips[i].nonce) in VerifyChips(bits, chips, out)
    ensures forall k <- out :: k in VerifyChips(bits, chips, out)
    decreases |chips|
  {
    if chips != [] {
      VerifyChipsHolds(bits, chips[..|chips| - 1], out);
    }
  }

  /** Verification finds the true bits of every chip of the owner's banks, and it knows no content ids. */
  lemma {:induction false} VerifyIsByProof(bits: (nat, nat) -> nat, replies: seq<Reply>, owner: nat)
    ensures forall k <- VerifyReplies(bits, replies, owner) ::
              k.ProofOf? && VerifyReplies(bits, replies, owner)[k] == bits(k.ms, k.nonce)
    ensures forall i, j | 0 <= i < |replies| && replies[i].author == owner && replies[i].move.Bank? && 0 <= j < |replies[i].move.chips| ::
              ProofOf(replies[i].move.chips[j].ms, replies[i].move.chips[j].nonce) in VerifyReplies(bits, replies, owner)
    decreases |replies|
  {
    if replies != [] {
      var n := |replies| - 1;
      VerifyIsByProof(bits, replies[..n], owner);
      if replies[n].author == owner && replies[n].move.Bank? {
        VerifyChipsHolds(bits, replies[n].move.chips, VerifyReplies(bits, replies[..n], owner));
      }
    }
  }

  lemma {:induction false} CopiesNothing(known: map<VKey, nat>, new_: seq<Reply>, verified: map<VKey, nat>)
    requires forall k <- verified :: k.ProofOf?
    ensures CopyVerified(known, new_, verified) == known
    decreases |new_|
  {
    if new_ != [] {
      CopiesNothing(known, new_[..|new_| - 1], verified);
    }
  }

  /** Merging what verification returned adds no verification result at all. */
  lemma MergeLosesProofs(bits: (nat, nat) -> nat, base: Base, incoming: seq<Reply>, owner: nat)
    ensures Merge(base, incoming, VerifyReplies(bits, incoming, owner)).verified == base.verified
  {
    VerifyIsByProof(bits, incoming, owner);
    CopiesNothing(base.verified, Unknown(base.replies, incoming), VerifyReplies(bits, incoming, owner));
  }

  /** The proofs a verification map knows. */
  function ProofsIn(v: map<VKey, nat>): Verified {
    map k | k in v && k.ProofOf? :: (k.ms, k.nonce) := v[k]
  }

  /** Content addressing: what a reply says is determined by its content id, whatever height it is served at. */
  ghost predicate Genuine(body: nat -> (nat, nat, Move), rs: seq<Reply>) {
    forall i | 0 <= i < |rs| :: (rs[i].author, rs[i].ms, rs[i].move) == body(rs[i].cid)
  }

  ghost predicate InBase(base: seq<Reply>, table: nat, author: nat, k: MoveKey) {
    exists i :: 0 <= i < |base| && Proves(base[i], table, author, k)
  }

  lemma {:induction false} UnknownIs(base: seq<Reply>, incoming: seq<Reply>)
    ensures forall r <- incoming :: KnownCid(base, r.cid) || r in Unknown(base, incoming)
    ensures forall r <- Unknown(base, incoming) :: r in incoming && !KnownCid(base, r.cid)
    decreases |incoming|
  {
    if incoming != [] {
      UnknownIs(base, incoming[1..]);
      assert incoming == [incoming[0]] + incoming[1..];
    }
  }

  /** A merge keeps the base in place and adds behind it exactly the polled replies whose content id it did not have. */
  lemma MergeAddsUnknown(base: Base, incoming: seq<Reply>, verified: map<VKey, nat>)
    ensures var merged := Merge(base, incoming, verified).replies;
            && base.replies <= merged
            && (forall r :: r in merged[|base.replies|..] <==> r in incoming && !KnownCid(base.replies, r.cid))
  {
    UnknownIs(base.replies, incoming);
    var more := Unknown(base.replies, incoming);
    assert Merge(base, incoming, verified).replies == base.replies + more;
    assert (base.replies + more)[|base.replies|..] == more;
  }

  /** A result filed under a new reply's content id is copied; everything else stays as it was. */
  lemma {:induction false} CopyIsByContent(known: map<VKey, nat>, new_: seq<Reply>, verified: map<VKey, nat>, k: VKey)
    ensures var out, wanted := CopyVerified(known, new_, verified), k in verified && exists r :: r in new_ && k == ContentOf(r.cid);
            && (k in out <==> k in known || wanted)
            && (k in out ==> out[k] == if wanted then verified[k] else known[k])
    decreases |new_|
  {
    if new_ != [] {
      CopyIsByContent(known, new_[..|new_| - 1], verified, k);
      assert new_ == new_[..|new_| - 1] + [new_[|new_| - 1]];
    }
  }

  /** Merging loses no reply and adds every key the poll proves, even when the poll omits replies. */
  lemma MergeHoldsPoll(body: nat -> (nat, nat, Move), base: Base, incoming: seq<Reply>, verified: map<VKey, nat>, table: nat, author: nat, k: MoveKey)
    requires Genuine(body, base.replies) && Genuine(body, incoming)
    ensures Genuine(body, Merge(base, incoming, verified).replies)
    ensures forall r <- Merge(base, incoming, verified).replies :: r in base.replies || r in incoming
    ensures InBase(base.replies, table, author, k) || InBase(incoming, table, author, k) ==>
              InBase(Merge(base, incoming, verified).replies, table, author, k)
  {
    var merged := Merge(base, incoming, verified).replies;
    UnknownIs(base.replies, incoming);
    assert merged == base.replies + Unknown(base.replies, incoming);
    forall i | 0 <= i < |merged|
      ensures (merged[i].author, merged[i].ms, merged[i].move) == body(merged[i].cid)
    {
      if i >= |base.replies| {
        assert merged[i] in Unknown(base.replies, incoming) && merged[i] in incoming;
      }
    }
    if InBase(base.replies, table, author, k) {
      var i :| 0 <= i < |base.replies| && Proves(base.replies[i], table, author, k);
      assert Proves(merged[i], table, author, k);
    } else if InBase(incoming, table, author, k) {
      PolledIsHeld(body, base.replies, incoming, table, author, k);
    }
  }

  lemma PolledIsHeld(body: nat -> (nat, nat, Move), base: seq<Reply>, incoming: seq<Reply>, table: nat, author: nat, k: MoveKey)
    requires Genuine(body, base) && Genuine(body, incoming) && InBase(incoming, table, author, k)
    ensures InBase(base + Unknown(base, incoming), table, author, k)
  {
    var merged := base + Unknown(base, incoming);
    UnknownIs(base, incoming);
    var i :| 0 <= i < |incoming| && Proves(incoming[i], table, author, k);
    assert incoming[i] in incoming;
    if KnownCid(base, incoming[i].cid) {
      var j :| 0 <= j < |base| && base[j].cid == incoming[i].cid;
      assert Proves(merged[j], table, author, k);
    } else {
      assert incoming[i] in merged;
      var j :| 0 <= j < |merged| && merged[j] == incoming[i];
      assert Proves(merged[j], table, author, k);
    }
  }

  // ------------------------------------------------------------------ retiring

  predicate StillValid(sentAt: nat, now: nat) {
    (if now >= sentAt then now - sentAt else sentAt - now) < SETTLE_TTL_MS
  }

  /** The chain has this move and, for a buy, the fold honours it; `owned` is None before the first fold. */
  predicate Done(m: QMove, keys: set<MoveKey>, owned: Option<set<Jar>>) {
    && KeyOf(m) in keys && !m.what.Spend?
    && (m.what.Buy? && owned.Some? ==> m.what.key in owned.value)
  }

  predicate Keeps(m: QMove, keys: set<MoveKey>, now: nat, owned: Option<set<Jar>>) {
    !Done(m, keys, owned) && (m.sentAt.Some? ==> StillValid(m.sentAt.value, now))
  }

  function RetireSettled(q: Queue, keys: set<MoveKey>, now: nat, owned: Option<set<Jar>>): Queue {
    if q == [] then []
    else if Keeps(q[0], keys, now, owned) then [q[0]] + RetireSettled(q[1..], keys, now, owned)
    else RetireSettled(q[1..], keys, now, owned)
  }

  lemma {:induction false} RetireIs(q: Queue, keys: set<MoveKey>, now: nat, owned: Option<set<Jar>>)
    ensures forall m :: m in RetireSettled(q, keys, now, owned) <==> m in q && Keeps(m, keys, now, owned)
    decreases |q|
  {
    if q != [] {
      RetireIs(q[1..], keys, now, owned);
      assert q == [q[0]] + q[1..];
    }
  }

  /**
   Which entries leave the queue: those a poll proves, a buy only once it is owned
   and a spend never, and those sent ten and a half minutes ago or more by a clock
   that may have been set back.
   */
  lemma LeavesQueueIff(q: Queue, keys: set<MoveKey>, now: nat, owned: Option<set<Jar>>, m: QMove)
    requires m in q
    ensures m !in RetireSettled(q, keys, now, owned) <==>
            || (KeyOf(m) in keys && match m.what
                                    case Spend(_, _) => false
                                    case Buy(key) => owned.None? || key in owned.value
                                    case _ => true)
            || (m.sentAt.Some? && (now >= m.sentAt.value + 630_000 || m.sentAt.value >= now + 630_000))
  {
    RetireIs(q, keys, now, owned);
  }

  // ------------------------------------------------------------------ the protocol

  /**
   What a run is played in: the bodies behind content ids, the true bits of each
   proof, the synthetic ids of queue entries, and the table and identity in play.
   */
  datatype World = World(body: nat -> (nat, nat, Move), bits: (nat, nat) -> nat, pend: nat -> nat, table: nat, author: nat)

  /** Different queue entries have different synthetic ids. */
  ghost predicate PendsApart(w: World) {
    forall i: nat, j: nat :: w.pend(i) == w.pend(j) ==> i == j
  }

  /** `merged` holds polls whose replies are in the base and whose queue update React still owes. */
  datatype State = State(queue: Queue, base: Base, served: map<nat, seq<Reply>>, merged: map<nat, seq<Reply>>,
                         entered: set<QMove>, expired: set<nat>)

  datatype Event =
    | Enter(m: QMove)
    | Ack(taken: Queue, at: nat)
    | PollServed(p: nat, replies: seq<Reply>)
    | PollMerged(p: nat)
    | PollRetires(p: nat, now: nat, owned: Option<set<Jar>>)
    | ClockTick(now: nat)

  const START: State := State([], EMPTY_BASE, map[], map[], {}, {})

  /** Ids of sent entries the clock gives up on, apart from those the chain has. */
  ghost function GivenUp(q: Queue, keys: set<MoveKey>, now: nat, owned: Option<set<Jar>>): set<nat> {
    set m | m in q && !Done(m, keys, owned) && m.sentAt.Some? && !StillValid(m.sentAt.value, now) :: m.id
  }

  ghost function Retired(s: State, keys: set<MoveKey>, now: nat, owned: Option<set<Jar>>): State {
    s.(queue := RetireSettled(s.queue, keys, now, owned), expired := s.expired + GivenUp(s.queue, keys, now, owned))
  }

  /** A reply the node may serve: genuine, and under an id of the chain. */
  ghost predicate Servable(w: World, r: Reply) {
    (r.author, r.ms, r.move) == w.body(r.cid) && forall i: nat :: w.pend(i) != r.cid
  }

  /** A bank made here claims the bits its proof has, since it was mined here. */
  ghost predicate Mined(w: World, m: QMove) {
    Active(m, w.table, w.author) && ChipProof(m).Some? ==> m.what.chips[0].bits == w.bits(ChipProof(m).value.0, ChipProof(m).value.1)
  }

  ghost predicate Possible(w: World, s: State, e: Event) {
    match e
    case Enter(m) =>
      m.sentAt.None? && (forall o <- s.entered :: o.id != m.id) && Mined(w, m)
    case PollServed(_, replies) => forall r <- replies :: Servable(w, r)
    case _ => true
  }

  ghost function Step(w: World, s: State, e: Event): State {
    match e
    case Enter(m) => s.(queue := s.queue + [m], entered := s.entered + {m})
    case Ack(taken, at) => s.(queue := MarkSent(s.queue, taken, at))
    case PollServed(p, replies) => s.(served := s.served[p := replies])
    case PollMerged(p) =>
      if p !in s.served then s
      else s.(base := Merge(s.base, s.served[p], VerifyReplies(w.bits, s.served[p], w.author)),
              merged := s.merged[p := s.served[p]], served := s.served - {p})
    case PollRetires(p, now, owned) =>
      if p !in s.merged then s
      else Retired(s, PollKeys(s.merged[p], w.table, w.author), now, owned).(merged := s.merged - {p})
    case ClockTick(now) => Retired(s, {}, now, None)
  }

  /** Sent ten and a half minutes or more away from `now`, either way. */
  ghost predicate TimedOut(m: QMove, now: nat) {
    m.sentAt.Some? && (now >= m.sentAt.value + 630_000 || m.sentAt.value >= now + 630_000)
  }

  /** The poll shows the move; for a buy the jar must be owned as well, and a spend is never recognised. */
  ghost predicate PollShows(replies: seq<Reply>, w: World, owned: Option<set<Jar>>, m: QMove) {
    && InBase(replies, w.table, w.author, KeyOf(m)) && !m.what.Spend?
    && (m.what.Buy? && owned.Some? ==> m.what.key in owned.value)
  }

  /** The only ways out of the queue: the clock runs out, or a merged poll shows the move when React gets to it. */
  lemma LeavesOnlyIf(w: World, s: State, e: Event, m: QMove)
    requires m in s.queue && !e.Ack?
    ensures m !in Step(w, s, e).queue <==>
            match e
            case ClockTick(now) => TimedOut(m, now)
            case PollRetires(p, now, owned) => p in s.merged && (TimedOut(m, now) || PollShows(s.merged[p], w, owned, m))
            case _ => false
  {
    match e {
      case ClockTick(now) => LeavesQueueIff(s.queue, {}, now, None, m);
      case PollRetires(p, now, owned) =>
        if p in s.merged {
          PollKeysAre(s.merged[p], w.table, w.author);
          LeavesQueueIff(s.queue, PollKeys(s.merged[p], w.table, w.author), now, owned, m);
        }
      case _ =>
    }
  }

  ghost predicate Queued(q: Queue, id: nat) {
    exists i :: 0 <= i < |q| && q[i].id == id
  }

  /** The move's local copy is queued, or the base holds a reply that proves it. */
  ghost predicate Held(w: World, s: State, m: QMove) {
    Queued(s.queue, m.id) || InBase(s.base.replies, w.table, w.author, KeyOf(m))
  }

  /** `q` is an entered move, stamped or not. */
  ghost predicate IsEntry(s: State, q: QMove) {
    exists m :: m in s.entered && m.(sentAt := q.sentAt) == q
  }

  /** The base holds servable replies and no verification result, and everything merged polls prove. */
  ghost predicate BaseInv(w: World, s: State) {
    && (forall r <- s.base.replies :: Servable(w, r)) && s.base.verified == map[]
    && (forall p <- s.served :: forall r <- s.served[p] :: Servable(w, r))
    && (forall p <- s.merged :: forall k :: InBase(s.merged[p], w.table, w.author, k) ==> InBase(s.base.replies, w.table, w.author, k))
  }

  ghost predicate Inv(w: World, s: State) {
    && BaseInv(w, s)
    && (forall i | 0 <= i < |s.queue| :: IsEntry(s, s.queue[i])) && Apart(s.queue)
    && Named(w, s.entered)
    && (forall m <- s.entered :: Active(m, w.table, w.author) ==> Held(w, s, m) || m.id in s.expired)
  }

  /** Entered moves have ids of their own, and banks the bits of their proofs. */
  ghost predicate Named(w: World, entered: set<QMove>) {
    && (forall m, o | m in entered && o in entered && m.id == o.id :: m == o)
    && (forall m <- entered :: Mined(w, m))
  }

  lemma ServableIsGenuine(w: World, rs: seq<Reply>)
    requires forall r <- rs :: Servable(w, r)
    ensures Genuine(w.body, rs)
  {
    forall i | 0 <= i < |rs|
      ensures (rs[i].author, rs[i].ms, rs[i].move) == w.body(rs[i].cid)
    {
      assert rs[i] in rs;
    }
  }

  /** No two entries of a queue share an id. */
  ghost predicate Apart(q: Queue) {
    forall i, j | 0 <= i < j < |q| :: q[i].id != q[j].id
  }

  lemma ApartCons(m: QMove, q: Queue)
    requires Apart(q) && forall o <- q :: o.id != m.id
    ensures Apart([m] + q)
  {
    var u := [m] + q;
    forall i, j | 0 <= i < j < |u|
      ensures u[i].id != u[j].id
    {
      assert u[j] == q[j - 1] && q[j - 1] in q;
    }
  }

  lemma {:induction false} RetiredKeepsApart(q: Queue, keys: set<MoveKey>, now: nat, owned: Option<set<Jar>>)
    requires Apart(q)
    ensures Apart(RetireSettled(q, keys, now, owned))
    decreases |q|
  {
    if q != [] {
      RetiredKeepsApart(q[1..], keys, now, owned);
      RetireIs(q[1..], keys, now, owned);
      var rest := RetireSettled(q[1..], keys, now, owned);
      forall o <- rest
        ensures o.id != q[0].id
      {
        var k :| 0 <= k < |q[1..]| && q[1..][k] == o;
        assert q[k + 1] == o;
      }
      if Keeps(q[0], keys, now, owned) {
        ApartCons(q[0], rest);
      }
    }
  }

  lemma RetiredEntries(s: State, keys: set<MoveKey>, now: nat, owned: Option<set<Jar>>)
    requires forall i | 0 <= i < |s.queue| :: IsEntry(s, s.queue[i])
    ensures var t := Retired(s, keys, now, owned); forall i | 0 <= i < |t.queue| :: IsEntry(t, t.queue[i])
  {
    var t := Retired(s, keys, now, owned);
    RetireIs(s.queue, keys, now, owned);
    forall i | 0 <= i < |t.queue|
      ensures IsEntry(t, t.queue[i])
    {
      assert t.queue[i] in s.queue;
      var j :| 0 <= j < |s.queue| && s.queue[j] == t.queue[i];
      assert IsEntry(s, s.queue[j]);
    }
  }

  lemma RetireKeepsInv(w: World, s: State, keys: set<MoveKey>, now: nat, owned: Option<set<Jar>>)
    requires Inv(w, s) && forall k <- keys :: InBase(s.base.replies, w.table, w.author, k)
    ensures Inv(w, Retired(s, keys, now, owned))
  {
    var t := Retired(s, keys, now, owned);
    assert BaseInv(w, t);
    RetiredKeepsApart(s.queue, keys, now, owned);
    RetiredEntries(s, keys, now, owned);
    forall m <- t.entered | Active(m, w.table, w.author)
      ensures Held(w, t, m) || m.id in t.expired
    {
      RetireHolds(w, s, keys, now, owned, m);
    }
  }

  lemma RetireHolds(w: World, s: State, keys: set<MoveKey>, now: nat, owned: Option<set<Jar>>, m: QMove)
    requires Inv(w, s) && (forall k <- keys :: InBase(s.base.replies, w.table, w.author, k))
    requires m in s.entered && Active(m, w.table, w.author)
    ensures var t := Retired(s, keys, now, owned); Held(w, t, m) || m.id in t.expired
  {
    var t := Retired(s, keys, now, owned);
    RetireIs(s.queue, keys, now, owned);
    assert Held(w, s, m) || m.id in s.expired;
    if Queued(s.queue, m.id) {
      var i :| 0 <= i < |s.queue| && s.queue[i].id == m.id;
      var q := s.queue[i];
      assert q in s.queue && IsEntry(s, q);
      var o :| o in s.entered && o.(sentAt := q.sentAt) == q;
      assert o == m && KeyOf(q) == KeyOf(m) by {
        KeyIgnoresStamp(m, q.sentAt);
      }
      if q in t.queue {
        var j :| 0 <= j < |t.queue| && t.queue[j] == q;
        assert t.queue[j].id == m.id;
      } else if !Done(q, keys, owned) {
        assert q.id in GivenUp(s.queue, keys, now, owned);
      }
    }
  }

  lemma MergeKeepsInv(w: World, s: State, p: nat)
    requires Inv(w, s) && p in s.served
    ensures Inv(w, Step(w, s, PollMerged(p)))
  {
    var t := Step(w, s, PollMerged(p));
    var verified := VerifyReplies(w.bits, s.served[p], w.author);
    MergeLosesProofs(w.bits, s.base, s.served[p], w.author);
    ServableIsGenuine(w, s.base.replies);
    ServableIsGenuine(w, s.served[p]);
    MergeHoldsPoll(w.body, s.base, s.served[p], verified, w.table, w.author, NoKey);
    forall k
      ensures InBase(s.base.replies, w.table, w.author, k) || InBase(s.served[p], w.table, w.author, k) ==>
                InBase(t.base.replies, w.table, w.author, k)
    {
      MergeHoldsPoll(w.body, s.base, s.served[p], verified, w.table, w.author, k);
    }
    forall i | 0 <= i < |t.queue|
      ensures IsEntry(t, t.queue[i])
    {
      assert IsEntry(s, s.queue[i]);
    }
    forall m <- t.entered | Active(m, w.table, w.author)
      ensures Held(w, t, m) || m.id in t.expired
    {
      assert Held(w, s, m) || m.id in s.expired;
    }
  }

  lemma KeyIgnoresStamp(m: QMove, at: Option<nat>)
    ensures KeyOf(m.(sentAt := at)) == KeyOf(m)
  {
  }

  /** The ack stamps entries; it neither adds, drops nor changes any otherwise. */
  lemma AckKeepsInv(w: World, s: State, taken: Queue, at: nat)
    requires Inv(w, s)
    ensures Inv(w, Step(w, s, Ack(taken, at)))
  {
    var t := Step(w, s, Ack(taken, at));
    MarkSentIs(s.queue, taken, at);
    assert forall i | 0 <= i < |t.queue| :: t.queue[i].id == s.queue[i].id;
    forall i | 0 <= i < |t.queue|
      ensures IsEntry(t, t.queue[i])
    {
      MarkedIsEntry(s, t, i);
    }
    forall m <- t.entered | Active(m, w.table, w.author)
      ensures Held(w, t, m) || m.id in t.expired
    {
      assert Held(w, s, m) || m.id in s.expired;
      SameIdsQueued(s.queue, t.queue, m.id);
    }
  }

  lemma SameIdsQueued(q: Queue, u: Queue, id: nat)
    requires |u| == |q| && forall i | 0 <= i < |u| :: u[i].id == q[i].id
    ensures Queued(q, id) ==> Queued(u, id)
  {
    if Queued(q, id) {
      var i :| 0 <= i < |q| && q[i].id == id;
      assert u[i].id == id;
    }
  }

  lemma MarkedIsEntry(s: State, t: State, i: nat)
    requires i < |s.queue| == |t.queue| && IsEntry(s, s.queue[i]) && t.entered == s.entered
    requires t.queue[i] == s.queue[i].(sentAt := t.queue[i].sentAt)
    ensures IsEntry(t, t.queue[i])
  {
    var m :| m in s.entered && m.(sentAt := s.queue[i].sentAt) == s.queue[i];
    assert m.(sentAt := t.queue[i].sentAt) == t.queue[i];
  }

  lemma EnterKeepsInv(w: World, s: State, m: QMove)
    requires Inv(w, s) && Possible(w, s, Enter(m))
    ensures Inv(w, Step(w, s, Enter(m)))
  {
    var t := Step(w, s, Enter(m));
    EnteredEntries(w, s, m);
    forall x <- t.entered | Active(x, w.table, w.author)
      ensures Held(w, t, x) || x.id in t.expired
    {
      if x in s.entered {
        assert Held(w, s, x) || x.id in s.expired;
      }
      QueuedStill(s.queue, m, x.id);
    }
  }

  lemma EnteredEntries(w: World, s: State, m: QMove)
    requires Inv(w, s) && Possible(w, s, Enter(m))
    ensures var t := Step(w, s, Enter(m)); (forall i | 0 <= i < |t.queue| :: IsEntry(t, t.queue[i])) && Apart(t.queue)
  {
    var t := Step(w, s, Enter(m));
    var n := |s.queue|;
    forall i | 0 <= i < |t.queue|
      ensures IsEntry(t, t.queue[i]) && (i < n ==> t.queue[i].id != m.id)
    {
      if i < n {
        assert IsEntry(s, s.queue[i]);
        var o :| o in s.entered && o.(sentAt := s.queue[i].sentAt) == s.queue[i];
        assert o in t.entered;
      } else {
        assert m in t.entered && m.(sentAt := t.queue[i].sentAt) == t.queue[i];
      }
    }
  }

  lemma QueuedStill(q: Queue, m: QMove, id: nat)
    ensures Queued(q, id) || id == m.id ==> Queued(q + [m], id)
  {
    var u := q + [m];
    assert u[|q|] == m;
    if Queued(q, id) {
      var i :| 0 <= i < |q| && q[i].id == id;
      assert u[i].id == id;
    }
  }

  /** Changing what the node has served, or owes, changes nothing held. */
  lemma SameHeld(w: World, s: State, t: State)
    requires Inv(w, s) && t.queue == s.queue && t.base == s.base && t.entered == s.entered && t.expired == s.expired
    ensures forall i | 0 <= i < |t.queue| :: IsEntry(t, t.queue[i])
    ensures forall m <- t.entered :: Active(m, w.table, w.author) ==> Held(w, t, m) || m.id in t.expired
  {
    forall i | 0 <= i < |t.queue|
      ensures IsEntry(t, t.queue[i])
    {
      assert IsEntry(s, s.queue[i]);
    }
    forall m <- t.entered | Active(m, w.table, w.author)
      ensures Held(w, t, m) || m.id in t.expired
    {
      assert Held(w, s, m) || m.id in s.expired;
    }
  }

  lemma StepKeepsInv(w: World, s: State, e: Event)
    requires Inv(w, s) && Possible(w, s, e)
    ensures Inv(w, Step(w, s, e))
  {
    match e {
      case Enter(m) => EnterKeepsInv(w, s, m);
      case Ack(taken, at) => AckKeepsInv(w, s, taken, at);
      case PollServed(p, replies) => SameHeld(w, s, Step(w, s, e));
      case PollMerged(p) =>
        if p in s.served {
          MergeKeepsInv(w, s, p);
        }
      case PollRetires(p, now, owned) =>
        if p in s.merged {
          PollKeysAre(s.merged[p], w.table, w.author);
          RetireKeepsInv(w, s, PollKeys(s.merged[p], w.table, w.author), now, owned);
          SameHeld(w, Retired(s, PollKeys(s.merged[p], w.table, w.author), now, owned), Step(w, s, e));
        }
      case ClockTick(now) => RetireKeepsInv(w, s, {}, now, None);
    }
  }

  ghost predicate Legal(w: World, s: State, events: seq<Event>)
    decreases |events|
  {
    events == [] || (Possible(w, s, events[0]) && Legal(w, Step(w, s, events[0]), events[1..]))
  }

  ghost function Run(w: World, s: State, events: seq<Event>): State
    decreases |events|
  {
    if events == [] then s else Run(w, Step(w, s, events[0]), events[1..])
  }

  lemma {:induction false} RunKeepsInv(w: World, s: State, events: seq<Event>)
    requires Inv(w, s) && Legal(w, s, events)
    ensures Inv(w, Run(w, s, events))
    decreases |events|
  {
    if events != [] {
      StepKeepsInv(w, s, events[0]);
      RunKeepsInv(w, Step(w, s, events[0]), events[1..]);
    }
  }

  /** In every run a move made for this table and identity is in the queue or in the base, or the clock gave up on it. */
  lemma HeldUntilExpired(w: World, events: seq<Event>)
    requires Legal(w, START, events)
    ensures var s := Run(w, START, events);
            forall m <- s.entered :: Active(m, w.table, w.author) ==> Held(w, s, m) || m.id in s.expired
  {
    RunKeepsInv(w, START, events);
  }

  // ------------------------------------------------------------------ what the fold credits

  /** What foldNow folds. */
  ghost function Input(w: World, s: State): seq<Reply> {
    s.base.replies + Overlay(w.pend, s.queue, w.table, w.author)
  }

  ghost function FoldAt(cat: Catalog, w: World, s: State): Fold {
    Shown(cat, ProofsIn(s.base.verified), w.pend, s.base.replies, s.queue, w.table, w.author)
  }

  /** Some replayed reply carries the move. */
  ghost predicate Replays(w: World, s: State, m: QMove) {
    exists x :: x in Ordered(Dedupe(Mine(Input(w, s), w.author))) && x.move == m.what && x.ms == AuthoredAt(m)
  }

  /** The fold counts the move: a bank's proof is credited, a dip, tip or blow is marked, the others have been judged. */
  ghost predicate Counted(cat: Catalog, w: World, s: State, m: QMove) {
    match m.what
    case Bank(_) => ChipProof(m).Some? && ChipProof(m).value in FoldAt(cat, w, s).proofs
    case Dip(_) => SeenKey(Synthetic(w.pend, m)).value in FoldAt(cat, w, s).seen
    case Tip(_) => SeenKey(Synthetic(w.pend, m)).value in FoldAt(cat, w, s).seen
    case Broke(_) => SeenKey(Synthetic(w.pend, m)).value in FoldAt(cat, w, s).seen
    case _ => Replays(w, s, m)
  }

  /** A queue entry in play with the move's proof. */
  ghost predicate QueuedBank(w: World, q: Queue, proof: (nat, nat)) {
    exists m :: m in q && Active(m, w.table, w.author) && ChipProof(m) == Some(proof)
  }

  lemma NoPendingInBase(w: World, s: State, id: nat)
    requires BaseInv(w, s)
    ensures forall b <- s.base.replies :: b.cid != w.pend(id)
  {
    forall b <- s.base.replies
      ensures b.cid != w.pend(id)
    {
      assert Servable(w, b);
    }
  }

  /** What is replayed under a queue entry's synthetic id is that entry. */
  lemma OverlayReplays(w: World, s: State, q: QMove)
    requires Inv(w, s) && PendsApart(w) && q in s.queue && Active(q, w.table, w.author) && Submittable(q)
    ensures exists x :: x in Ordered(Dedupe(Mine(Input(w, s), w.author))) && x == Synthetic(w.pend, q)
  {
    OverlayIs(w.pend, s.queue, w.table, w.author);
    var r := Synthetic(w.pend, q);
    assert r in Overlay(w.pend, s.queue, w.table, w.author) && r in Input(w, s);
    ReplaysEveryCid(Input(w, s), w.author);
    var x :| x in Ordered(Dedupe(Mine(Input(w, s), w.author))) && x.cid == r.cid;
    OnlyEntryUnderId(w, s, q, x);
  }

  lemma OnlyEntryUnderId(w: World, s: State, q: QMove, x: Reply)
    requires Inv(w, s) && PendsApart(w) && q in s.queue && x in Input(w, s) && x.cid == w.pend(q.id)
    ensures x == Synthetic(w.pend, q)
  {
    NoPendingInBase(w, s, q.id);
    OverlayIs(w.pend, s.queue, w.table, w.author);
    var o :| o in s.queue && Active(o, w.table, w.author) && Submittable(o) && x == Synthetic(w.pend, o);
    assert o.id == q.id;
    SameIdSameEntry(s.queue, o, q);
  }

  lemma SameIdSameEntry(q: Queue, a: QMove, b: QMove)
    requires Apart(q) && a in q && b in q && a.id == b.id
    ensures a == b
  {
    var i :| 0 <= i < |q| && q[i] == a;
    var j :| 0 <= j < |q| && q[j] == b;
    assert i == j;
  }

  /** What is replayed under the content id of a base reply says what that reply says. */
  lemma BaseReplays(w: World, s: State, r: Reply)
    requires Inv(w, s) && r in s.base.replies && r.author == w.author
    ensures exists x :: x in Ordered(Dedupe(Mine(Input(w, s), w.author))) && x.move == r.move && x.ms == r.ms
  {
    OverlayIs(w.pend, s.queue, w.table, w.author);
    assert r in Input(w, s) && Servable(w, r);
    ReplaysEveryCid(Input(w, s), w.author);
    var x :| x in Ordered(Dedupe(Mine(Input(w, s), w.author))) && x.cid == r.cid;
    assert x in Input(w, s);
    assert x in s.base.replies;
    assert Servable(w, x);
  }

  /** A queued move is replayed. */
  lemma QueuedIsReplayed(w: World, s: State, m: QMove)
    requires Inv(w, s) && PendsApart(w) && m in s.entered && Active(m, w.table, w.author) && Submittable(m) && Queued(s.queue, m.id)
    ensures Replays(w, s, m)
  {
    var i :| 0 <= i < |s.queue| && s.queue[i].id == m.id;
    var q := s.queue[i];
    assert IsEntry(s, q) && q in s.queue;
    var o :| o in s.entered && o.(sentAt := q.sentAt) == q;
    assert o == m;
    OverlayReplays(w, s, q);
  }

  lemma ReplayedIsCounted(cat: Catalog, w: World, s: State, m: QMove)
    requires Replays(w, s, m) && !m.what.Bank?
    ensures Counted(cat, w, s, m)
  {
    var xs := Ordered(Dedupe(Mine(Input(w, s), w.author)));
    var x :| x in xs && x.move == m.what && x.ms == AuthoredAt(m);
    var v := Seed(ProofsIn(s.base.verified), s.queue, w.table, w.author);
    var k := SeenKey(Synthetic(w.pend, m));
    if k.Some? {
      assert SeenKey(x) == k;
      FoldCounts(cat, v, ChipsEngine.START, xs, (0, 0), k.value);
    }
  }

  /** A replayed tip is counted whichever jar it keeps. */
  lemma ReplayedTipIsCounted(cat: Catalog, w: World, s: State, m: QMove, x: Reply)
    requires m.what.Tip? && x in Ordered(Dedupe(Mine(Input(w, s), w.author))) && x.move.Tip? && x.ms == m.ms
    ensures Counted(cat, w, s, m)
  {
    var v := Seed(ProofsIn(s.base.verified), s.queue, w.table, w.author);
    assert SeenKey(x) == Some(SeenTip(m.ms));
    FoldCounts(cat, v, ChipsEngine.START, Ordered(Dedupe(Mine(Input(w, s), w.author))), (0, 0), SeenTip(m.ms));
  }

  /** Whatever else is held is counted: the authoring key of a tip or a buy says all that matters, and no other key is ever proved. */
  lemma HeldIsCounted(cat: Catalog, w: World, s: State, m: QMove)
    requires Inv(w, s) && PendsApart(w) && m in s.entered && Active(m, w.table, w.author) && Submittable(m)
    requires Held(w, s, m) && !m.what.Bank? && !m.what.Dip?
    ensures Counted(cat, w, s, m)
  {
    if Queued(s.queue, m.id) {
      QueuedIsReplayed(w, s, m);
      ReplayedIsCounted(cat, w, s, m);
    } else {
      var i :| 0 <= i < |s.base.replies| && Proves(s.base.replies[i], w.table, w.author, KeyOf(m));
      var r := s.base.replies[i];
      BaseReplays(w, s, r);
      var x :| x in Ordered(Dedupe(Mine(Input(w, s), w.author))) && x.move == r.move && x.ms == r.ms;
      if m.what.Tip? {
        ReplayedTipIsCounted(cat, w, s, m, x);
      } else {
        ReplayedIsCounted(cat, w, s, m);
      }
    }
  }

  // ------------------------------------------------------------------ dips

  /** An entry in play dips this amount at this time. */
  ghost predicate QueuedDip(w: World, q: Queue, amount: nat, ms: nat) {
    exists m :: m in q && Active(m, w.table, w.author) && m.what == Dip(amount) && m.ms == ms
  }

  /** The base holds a reply that dips this amount at this time. */
  ghost predicate BaseDip(w: World, base: seq<Reply>, amount: nat, ms: nat) {
    exists r :: r in base && r.author == w.author && r.move == Dip(amount) && r.ms == ms
  }

  /** A dip is counted exactly while a dip of its amount and time is queued or in the base; its authoring key leaves the amount out. */
  lemma DipCountedIff(cat: Catalog, w: World, s: State, m: QMove)
    requires Inv(w, s) && PendsApart(w) && Active(m, w.table, w.author) && Submittable(m) && m.what.Dip?
    ensures Counted(cat, w, s, m) <==> QueuedDip(w, s.queue, m.what.amount, m.ms) || BaseDip(w, s.base.replies, m.what.amount, m.ms)
  {
    if Counted(cat, w, s, m) {
      CountedDipIsThere(cat, w, s, m);
    } else {
      DipThereIsReplayed(w, s, m);
      if Replays(w, s, m) {
        ReplayedIsCounted(cat, w, s, m);
      }
    }
  }

  lemma CountedDipIsThere(cat: Catalog, w: World, s: State, m: QMove)
    requires m.what.Dip? && Counted(cat, w, s, m)
    ensures QueuedDip(w, s.queue, m.what.amount, m.ms) || BaseDip(w, s.base.replies, m.what.amount, m.ms)
  {
    var x := SeenIsReplayed(cat, w, s, SeenDip(m.what.amount, m.ms));
    DipIsSomewhere(w, s, x);
  }

  lemma SeenIsReplayed(cat: Catalog, w: World, s: State, k: Seen) returns (x: Reply)
    requires k in FoldAt(cat, w, s).seen
    ensures x in Input(w, s) && x.author == w.author && SeenKey(x) == Some(k)
  {
    var xs := Ordered(Dedupe(Mine(Input(w, s), w.author)));
    FoldCounts(cat, Seed(ProofsIn(s.base.verified), s.queue, w.table, w.author), ChipsEngine.START, xs, (0, 0), k);
    ReplaysEveryCid(Input(w, s), w.author);
    x :| x in xs && SeenKey(x) == Some(k);
  }

  lemma DipThereIsReplayed(w: World, s: State, m: QMove)
    requires Inv(w, s) && PendsApart(w) && Active(m, w.table, w.author) && Submittable(m) && m.what.Dip?
    ensures QueuedDip(w, s.queue, m.what.amount, m.ms) || BaseDip(w, s.base.replies, m.what.amount, m.ms) ==> Replays(w, s, m)
  {
    if QueuedDip(w, s.queue, m.what.amount, m.ms) {
      var q :| q in s.queue && Active(q, w.table, w.author) && q.what == m.what && q.ms == m.ms;
      OverlayReplays(w, s, q);
    } else if BaseDip(w, s.base.replies, m.what.amount, m.ms) {
      var r :| r in s.base.replies && r.author == w.author && r.move == m.what && r.ms == m.ms;
      BaseReplays(w, s, r);
    }
  }

  lemma DipIsSomewhere(w: World, s: State, x: Reply)
    requires x in Input(w, s) && x.author == w.author && x.move.Dip?
    ensures QueuedDip(w, s.queue, x.move.amount, x.ms) || BaseDip(w, s.base.replies, x.move.amount, x.ms)
  {
    OverlayIs(w.pend, s.queue, w.table, w.author);
  }

  /** A confirmed bank is credited exactly as long as its local copy is queued: the base keeps no verification of it. */
  lemma BankCountedIff(cat: Catalog, w: World, s: State, m: QMove)
    requires Inv(w, s) && PendsApart(w) && m in s.entered && Active(m, w.table, w.author) && Submittable(m) && m.what.Bank?
    ensures Counted(cat, w, s, m) <==> QueuedBank(w, s.queue, ChipProof(m).value)
  {
    var p, chip := ChipProof(m).value, m.what.chips[0];
    var xs := Ordered(Dedupe(Mine(Input(w, s), w.author)));
    assert ProofsIn(map[]) == map[];
    var v := Seed(map[], s.queue, w.table, w.author);
    SeedHas(map[], s.queue, w.table, w.author, p);
    FoldCounts(cat, v, ChipsEngine.START, xs, p, SeenTip(0));
    if QueuedBank(w, s.queue, p) {
      forall q <- s.queue | Active(q, w.table, w.author) && ChipProof(q) == Some(p)
        ensures q.what == m.what
      {
        QueuedSays(w, s, q, m);
      }
      SeedBits(map[], s.queue, w.table, w.author, p, chip.bits);
      var q :| q in s.queue && Active(q, w.table, w.author) && ChipProof(q) == Some(p);
      OverlayReplays(w, s, q);
      var x :| x in xs && x == Synthetic(w.pend, q);
      assert chip in x.move.chips && Creditable(v, chip);
      assert Banks(v, x, p);
    }
  }

  /** Whatever the base holds, this session's banks and earlier ones alike, only proofs of queued entries are credited. */
  lemma OnlyQueuedBanksCredit(cat: Catalog, w: World, s: State, p: (nat, nat))
    requires BaseInv(w, s) && p in FoldAt(cat, w, s).proofs
    ensures QueuedBank(w, s.queue, p)
  {
    assert ProofsIn(map[]) == map[];
    var v := Seed(map[], s.queue, w.table, w.author);
    SeedHas(map[], s.queue, w.table, w.author, p);
    FoldCounts(cat, v, ChipsEngine.START, Ordered(Dedupe(Mine(Input(w, s), w.author))), p, SeenTip(0));
  }

  /** One proof names one chip, whichever entry carries it. */
  lemma QueuedSays(w: World, s: State, q: QMove, m: QMove)
    requires Inv(w, s) && m in s.entered && Active(m, w.table, w.author) && m.what.Bank? && ChipProof(m).Some?
    requires q in s.queue && Active(q, w.table, w.author) && ChipProof(q) == ChipProof(m)
    ensures q.what == m.what
  {
    var i :| 0 <= i < |s.queue| && s.queue[i] == q;
    assert IsEntry(s, s.queue[i]);
    var o :| o in s.entered && o.(sentAt := q.sentAt) == q;
    KeyIgnoresStamp(o, q.sentAt);
    assert KeyOf(o) == KeyOf(m);
  }

  /**
   The credit gap, exactly. In every interleaving of polls, acknowledgements and
   clock ticks, of the moves made for this table and identity: a bank is counted
   exactly while an entry with its proof is queued; a dip exactly while a dip of
   its amount and time is queued or in the base, and if it is not, the clock gave
   up on it or the base has a dip of another amount at its time; every other move
   is counted until the clock gives up on it.
   */
  lemma NoCreditGap(cat: Catalog, w: World, events: seq<Event>)
    requires Legal(w, START, events) && PendsApart(w)
    ensures var s := Run(w, START, events);
            forall m <- s.entered :: Active(m, w.table, w.author) && Submittable(m) ==>
              match m.what
              case Bank(_) => Counted(cat, w, s, m) <==> QueuedBank(w, s.queue, ChipProof(m).value)
              case Dip(amount) =>
                && (Counted(cat, w, s, m) <==> QueuedDip(w, s.queue, amount, m.ms) || BaseDip(w, s.base.replies, amount, m.ms))
                && (Counted(cat, w, s, m) || m.id in s.expired || exists other: nat :: other != amount && BaseDip(w, s.base.replies, other, m.ms))
              case _ => Counted(cat, w, s, m) || m.id in s.expired
  {
    RunKeepsInv(w, START, events);
    var s := Run(w, START, events);
    forall m <- s.entered | Active(m, w.table, w.author) && Submittable(m) && m.what.Bank?
      ensures Counted(cat, w, s, m) <==> QueuedBank(w, s.queue, ChipProof(m).value)
    {
      BankCountedIff(cat, w, s, m);
    }
    forall m <- s.entered | Active(m, w.table, w.author) && Submittable(m) && m.what.Dip?
      ensures Counted(cat, w, s, m) <==> QueuedDip(w, s.queue, m.what.amount, m.ms) || BaseDip(w, s.base.replies, m.what.amount, m.ms)
      ensures Counted(cat, w, s, m) || m.id in s.expired
              || exists other: nat :: other != m.what.amount && BaseDip(w, s.base.replies, other, m.ms)
    {
      DipCountedIff(cat, w, s, m);
      if m.id !in s.expired {
        DipGap(w, s, m);
      }
    }
    forall m <- s.entered | Active(m, w.table, w.author) && Submittable(m) && !m.what.Bank? && !m.what.Dip? && m.id !in s.expired
      ensures Counted(cat, w, s, m)
    {
      HeldIsCounted(cat, w, s, m);
    }
  }

  lemma DipGap(w: World, s: State, m: QMove)
    requires Inv(w, s) && m in s.entered && Active(m, w.table, w.author) && m.what.Dip? && m.id !in s.expired
    ensures QueuedDip(w, s.queue, m.what.amount, m.ms) || exists amount: nat :: BaseDip(w, s.base.replies, amount, m.ms)
  {
    assert Held(w, s, m);
    if Queued(s.queue, m.id) {
      var i :| 0 <= i < |s.queue| && s.queue[i].id == m.id;
      var q := s.queue[i];
      assert IsEntry(s, q) && q in s.queue;
      var o :| o in s.entered && o.(sentAt := q.sentAt) == q;
      assert o == m;
    } else {
      var i :| 0 <= i < |s.base.replies| && Proves(s.base.replies[i], w.table, w.author, KeyOf(m));
      var r := s.base.replies[i];
      assert BaseDip(w, s.base.replies, r.move.amount, m.ms);
    }
  }

  // ------------------------------------------------------------------ what retiring shows

  lemma QueueIsTrue(w: World, s: State)
    requires Inv(w, s)
    ensures TrueBits(w.bits, map[], s.queue, w.table, w.author)
  {
    forall m <- s.queue | Active(m, w.table, w.author) && ChipProof(m).Some?
      ensures m.what.chips[0].bits == w.bits(m.what.chips[0].ms, m.what.chips[0].nonce)
    {
      var i :| 0 <= i < |s.queue| && s.queue[i] == m;
      assert IsEntry(s, s.queue[i]);
      var o :| o in s.entered && o.(sentAt := m.sentAt) == m;
      assert Mined(w, o);
    }
  }

  /** Every bank `kept` no longer has is queued in another entry. */
  ghost predicate BankedElsewhere(w: World, q: Queue, kept: Queue) {
    forall m :: Dropped(q, kept, w.table, w.author, m) && WorthBanking(m) ==> QueuedBank(w, kept, ChipProof(m).value)
  }

  lemma SeededIsQueued(w: World, q: Queue, kept: Queue)
    ensures StillSeeded(map[], q, kept, w.table, w.author) <==> BankedElsewhere(w, q, kept)
  {
    forall m | Dropped(q, kept, w.table, w.author, m) && WorthBanking(m)
      ensures ChipProof(m).value in Seed(map[], kept, w.table, w.author) <==> QueuedBank(w, kept, ChipProof(m).value)
    {
      SeedHas(map[], kept, w.table, w.author, ChipProof(m).value);
    }
  }

  lemma RetiredShowsSameIff(cat: Catalog, w: World, s: State, t: State)
    requires Inv(w, s) && t.base == s.base && CidNamesReply(Input(w, s), w.author)
    requires AllTwinned(w.pend, s.base.replies, s.queue, t.queue, w.table, w.author)
    ensures SameEconomy(FoldAt(cat, w, s), FoldAt(cat, w, t)) <==> BankedElsewhere(w, s.queue, t.queue)
  {
    QueueIsTrue(w, s);
    assert ProofsIn(map[]) == map[];
    RetiringIsInvisibleIff(cat, map[], w.bits, w.pend, s.base.replies, s.queue, t.queue, w.table, w.author);
    SeededIsQueued(w, s.queue, t.queue);
  }

  /**
   The queue update a poll owes, in every reachable state: if the base has twins
   of the entries it retires, the display stays the same exactly when every
   retired bank has another entry with its proof queued.
   */
  lemma PollRetiresUnseenIff(cat: Catalog, w: World, s: State, p: nat, now: nat, owned: Option<set<Jar>>)
    requires Inv(w, s) && p in s.merged && CidNamesReply(Input(w, s), w.author)
    requires AllTwinned(w.pend, s.base.replies, s.queue, Step(w, s, PollRetires(p, now, owned)).queue, w.table, w.author)
    ensures var t := Step(w, s, PollRetires(p, now, owned));
            SameEconomy(FoldAt(cat, w, s), FoldAt(cat, w, t)) <==> BankedElsewhere(w, s.queue, t.queue)
  {
    RetiredShowsSameIff(cat, w, s, Step(w, s, PollRetires(p, now, owned)));
  }

  /**
   A buy is retired only once its jar is owned, but the set consulted is the
   displayed one, which the local copy itself adds to. Of a buy that replays last:
   it is retired and its jar goes with it exactly when the jar is still for sale
   without the copy, that is when the chain's own copy was rejected or undone.
   */
  lemma RetiredBuyLosesJarIff(cat: Catalog, v: Verified, pend: nat -> nat, base: seq<Reply>, rest: Queue, m: QMove, table: nat, author: nat,
                              keys: set<MoveKey>)
    requires Clean(pend, base, rest + [m], author) && Before(pend, base, rest, table, author, AuthoredAt(m))
    requires Active(m, table, author) && Submittable(m) && m.what.Buy? && KeyOf(m) in keys
    ensures var shown, after := Shown(cat, v, pend, base, rest + [m], table, author), Shown(cat, v, pend, base, rest, table, author);
            Done(m, keys, Some(shown.table.owned)) && m.what.key !in after.table.owned <==> Buyable(cat, after.table, m.what.key)
  {
    ShownBuy(cat, v, pend, base, rest, m, table, author);
    BuyOwnsIff(cat, Shown(cat, v, pend, base, rest, table, author).table, m.what.key);
  }

  lemma BuyOwnsIff(cat: Catalog, t: Table, key: Jar)
    ensures key in ApplyBuy(cat, t, key).0.owned && key !in t.owned <==> Buyable(cat, t, key)
  {
  }

  const LINGERING_BUY: QMove := QMove(9, 1, 1, Buy("knob"), 2, Some(10))

  ghost function TippedBase(): seq<Reply> {
    [FIRST_DIP, FIRST_BUY, THE_TIP, SECOND_DIP]
  }

  lemma TippedBaseReplays()
    ensures Replay(TippedBase(), 1) == TippedBase()
  {
    var rs := TippedBase();
    assert forall i | 0 <= i < |rs| :: rs[i].author == 1 && rs[i].height == Some(i + 1) && rs[i].cid == i + 1;
    ReplayIs(rs, rs, 1);
  }

  lemma LingeringBuyIsDone()
    ensures KeyOf(LINGERING_BUY) in PollKeys(TippedBase(), 1, 1)
  {
    PollKeysAre(TippedBase(), 1, 1);
    assert Proves(TippedBase()[1], 1, 1, BuyKey(1, 1, "knob", 2));
  }

  /** A jar bought, tipped away and bought again by its lingering copy: the poll that serves the first purchase retires the copy, and the jar is gone. */
  lemma RetiringUnbuysJar(pend: nat -> nat)
    requires forall i: nat, j: nat :: (pend(i) == pend(j) ==> i == j) && pend(i) > 4
    ensures var base, q := TippedBase(), [LINGERING_BUY];
            var owned := Shown(ONE_JAR, map[], pend, base, q, 1, 1).table.owned;
            && owned == {"knob"} && RetireSettled(q, PollKeys(base, 1, 1), 20, Some(owned)) == []
            && Shown(ONE_JAR, map[], pend, base, [], 1, 1).table.owned == {}
  {
    TippedShown(pend);
    TippedIsClean(pend);
    BuyCopyRebuysAfterTip(map[]);
    LingeringShown(pend, TippedBase(), Shown(ONE_JAR, map[], pend, TippedBase(), [], 1, 1));
    LingeringRetires({"knob"});
  }

  lemma TippedShown(pend: nat -> nat)
    ensures Shown(ONE_JAR, map[], pend, TippedBase(), [], 1, 1) == FoldAll(ONE_JAR, map[], ChipsEngine.START, TippedBase())
  {
    TippedBaseReplays();
    assert TippedBase() + Overlay(pend, [], 1, 1) == TippedBase();
  }

  lemma TippedIsClean(pend: nat -> nat)
    requires forall i: nat, j: nat :: (pend(i) == pend(j) ==> i == j) && pend(i) > 4
    ensures Clean(pend, TippedBase(), [LINGERING_BUY], 1) && forall r <- TippedBase() :: r.height.Some?
  {
    var base := TippedBase();
    assert forall i | 0 <= i < |base| :: base[i].cid == i + 1 && base[i].height == Some(i + 1);
  }

  lemma LingeringRetires(owned: set<Jar>)
    requires "knob" in owned
    ensures RetireSettled([LINGERING_BUY], PollKeys(TippedBase(), 1, 1), 20, Some(owned)) == []
  {
    LingeringBuyIsDone();
    var q, keys := [LINGERING_BUY], PollKeys(TippedBase(), 1, 1);
    assert Done(q[0], keys, Some(owned));
    assert RetireSettled(q, keys, 20, Some(owned)) == RetireSettled(q[1..], keys, 20, Some(owned)) == [];
  }

  lemma LingeringShown(pend: nat -> nat, base: seq<Reply>, g: Fold)
    requires Clean(pend, base, [LINGERING_BUY], 1) && (forall r <- base :: r.height.Some?)
    requires g == Shown(ONE_JAR, map[], pend, base, [], 1, 1) && g.table.owned == {}
    requires FoldStep(ONE_JAR, map[], g, FIRST_BUY.(height := None)).table.owned == {"knob"}
    ensures Shown(ONE_JAR, map[], pend, base, [LINGERING_BUY], 1, 1).table.owned == {"knob"}
  {
    assert IsKeyText("knob") && base + Overlay(pend, [], 1, 1) == base && [] + [LINGERING_BUY] == [LINGERING_BUY];
    ShownAppend(ONE_JAR, map[], pend, base, [], LINGERING_BUY, 1, 1);
  }

  const SMALL_DIP: QMove := QMove(1, 1, 1, Dip(6_030), 5, None)
  const BIG_DIP: Reply := Reply(1, 100, Some(7), 9, 5, Dip(60_300))

  /** A node that serves a dip of ten times the amount under the same authoring time. */
  ghost function DipWorld(): World {
    World(cid => (1, 5, Dip(60_300)), (ms, nonce) => 8, id => 2 * id + 1, 1, 1)
  }

  ghost function DipRun(): seq<Event> {
    [Enter(SMALL_DIP), PollServed(0, [BIG_DIP]), PollMerged(0), PollRetires(0, 20, None)]
  }

  lemma DipMerges()
    ensures Merge(EMPTY_BASE, [BIG_DIP], VerifyReplies(DipWorld().bits, [BIG_DIP], 1)) == Base([BIG_DIP], map[])
  {
    MergeLosesProofs(DipWorld().bits, EMPTY_BASE, [BIG_DIP], 1);
    assert !KnownCid([], 100) && [BIG_DIP][1..] == [];
    assert Unknown([], [BIG_DIP]) == [BIG_DIP];
  }

  lemma DipRetires()
    ensures var keys := PollKeys([BIG_DIP], 1, 1);
            RetireSettled([SMALL_DIP], keys, 20, None) == [] && GivenUp([SMALL_DIP], keys, 20, None) == {}
  {
    var keys := PollKeys([BIG_DIP], 1, 1);
    PollKeysAre([BIG_DIP], 1, 1);
    assert Proves([BIG_DIP][0], 1, 1, DipKey(1, 1, 5));
    assert Done(SMALL_DIP, keys, None);
    assert RetireSettled([SMALL_DIP], keys, 20, None) == RetireSettled([SMALL_DIP][1..], keys, 20, None) == [];
  }

  lemma DipRunSteps()
    ensures Legal(DipWorld(), START, DipRun())
    ensures Run(DipWorld(), START, DipRun()) == State([], Base([BIG_DIP], map[]), map[], map[], {SMALL_DIP}, {})
  {
    var w, es := DipWorld(), DipRun();
    var s1 := Step(w, START, es[0]);
    var s2 := Step(w, s1, es[1]);
    var s3 := Step(w, s2, es[2]);
    DipMerges();
    DipRetires();
    assert s1.queue == [SMALL_DIP] && s3.merged == map[0 := [BIG_DIP]];
    assert s3.merged - {0} == map[];
    var s4 := Step(w, s3, es[3]);
    assert es[1..] == [es[1], es[2], es[3]] && es[1..][1..] == [es[2], es[3]] && es[1..][1..][1..] == [es[3]] && [es[3]][1..] == [];
    assert Run(w, s3, [es[3]]) == s4 && Legal(w, s3, [es[3]]);
    assert Run(w, s2, [es[2], es[3]]) == s4 && Legal(w, s2, [es[2], es[3]]);
    assert Run(w, s1, es[1..]) == s4 && Legal(w, s1, es[1..]);
  }

  /** A queued dip is retired by a dip of another amount made in the same millisecond, and its crumbs are gone without expiring. */
  lemma TwinTimeLosesDip(cat: Catalog)
    ensures Legal(DipWorld(), START, DipRun())
    ensures var s := Run(DipWorld(), START, DipRun());
            SMALL_DIP in s.entered && s.queue == [] && s.expired == {} && !Counted(cat, DipWorld(), s, SMALL_DIP)
  {
    DipRunSteps();
    RunKeepsInv(DipWorld(), START, DipRun());
    DipCountedIff(cat, DipWorld(), Run(DipWorld(), START, DipRun()), SMALL_DIP);
  }

  const CHIP: Chip := Chip(5, 8, 3)
  const BANKED_MOVE: QMove := QMove(1, 1, 1, Bank([CHIP]), 5, None)
  const BANKED_REPLY: Reply := Reply(1, 100, Some(7), 9, 5, Bank([CHIP]))

  /** A chip worth its eight bits, and a node that serves the reply that banks it. */
  ghost function BankWorld(): World {
    World(cid => (1, 5, Bank([CHIP])), (ms, nonce) => 8, id => 2 * id + 1, 1, 1)
  }

  ghost function BankRun(): seq<Event> {
    [Enter(BANKED_MOVE), Ack([BANKED_MOVE], 10), PollServed(0, [BANKED_REPLY]), PollMerged(0), PollRetires(0, 20, None)]
  }

  ghost function Merged(): State {
    State([BANKED_MOVE.(sentAt := Some(10))], Base([BANKED_REPLY], map[]), map[], map[0 := [BANKED_REPLY]], {BANKED_MOVE}, {})
  }

  lemma BankIsServable()
    ensures Servable(BankWorld(), BANKED_REPLY)
  {
  }

  lemma BankMerges()
    ensures Merge(EMPTY_BASE, [BANKED_REPLY], VerifyReplies(BankWorld().bits, [BANKED_REPLY], 1)) == Base([BANKED_REPLY], map[])
  {
    MergeLosesProofs(BankWorld().bits, EMPTY_BASE, [BANKED_REPLY], 1);
    assert !KnownCid([], 100) && [BANKED_REPLY][1..] == [];
    assert Unknown([], [BANKED_REPLY]) == [BANKED_REPLY];
  }

  lemma BankRetires()
    ensures Step(BankWorld(), Merged(), PollRetires(0, 20, None)) == Merged().(queue := [], merged := map[])
  {
    var sent := BANKED_MOVE.(sentAt := Some(10));
    var keys := PollKeys([BANKED_REPLY], 1, 1);
    PollKeysAre([BANKED_REPLY], 1, 1);
    assert BANKED_REPLY.move.chips[0] == CHIP;
    assert Proves([BANKED_REPLY][0], 1, 1, BankKey(1, 1, 5, 3));
    assert Done(sent, keys, None);
    assert RetireSettled([sent], keys, 20, None) == RetireSettled([sent][1..], keys, 20, None) == [];
    assert GivenUp([sent], keys, 20, None) == {};
  }

  /** The run up to the merge and its last step. */
  lemma BankRunSteps()
    ensures Legal(BankWorld(), START, BankRun()) && Run(BankWorld(), START, BankRun()) == Merged().(queue := [], merged := map[])
    ensures Run(BankWorld(), START, BankRun()[..4]) == Merged()
  {
    var w, es := BankWorld(), BankRun();
    var s1 := Step(w, START, es[0]);
    var s2 := Step(w, s1, es[1]);
    var s3 := Step(w, s2, es[2]);
    var s4 := Step(w, s3, es[3]);
    var s5 := Step(w, s4, es[4]);
    BankIsServable();
    BankMerges();
    BankRetires();
    MarkSentIs([BANKED_MOVE], [BANKED_MOVE], 10);
    assert HasId([BANKED_MOVE], 1) by {
      assert [BANKED_MOVE][0].id == 1;
    }
    assert s1.queue == [BANKED_MOVE] && s2.queue == [BANKED_MOVE.(sentAt := Some(10))];
    assert s4 == Merged();
    FiveSteps(w, es, s1, s2, s3, s4, s5);
  }

  lemma FiveSteps(w: World, es: seq<Event>, s1: State, s2: State, s3: State, s4: State, s5: State)
    requires |es| == 5 && s1 == Step(w, START, es[0]) && s2 == Step(w, s1, es[1]) && s3 == Step(w, s2, es[2])
    requires s4 == Step(w, s3, es[3]) && s5 == Step(w, s4, es[4])
    requires Possible(w, START, es[0]) && Possible(w, s1, es[1]) && Possible(w, s2, es[2]) && Possible(w, s3, es[3]) && Possible(w, s4, es[4])
    ensures Legal(w, START, es) && Run(w, START, es) == s5 && Run(w, START, es[..4]) == s4
  {
    assert es[1..] == [es[1], es[2], es[3], es[4]] && es[1..][1..] == [es[2], es[3], es[4]];
    assert es[1..][1..][1..] == [es[3], es[4]] && es[1..][1..][1..][1..] == [es[4]] && [es[4]][1..] == [];
    assert Run(w, s4, [es[4]]) == s5 && Legal(w, s4, [es[4]]);
    assert Run(w, s3, [es[3], es[4]]) == s5 && Legal(w, s3, [es[3], es[4]]);
    assert Run(w, s2, [es[2], es[3], es[4]]) == s5 && Legal(w, s2, [es[2], es[3], es[4]]);
    assert Run(w, s1, es[1..]) == s5 && Legal(w, s1, es[1..]);
    var fs := es[..4];
    assert fs[1..] == [es[1], es[2], es[3]] && fs[1..][1..] == [es[2], es[3]] && fs[1..][1..][1..] == [es[3]];
    assert [es[3]][1..] == [] && Run(w, s3, [es[3]]) == s4;
    assert Run(w, s2, [es[2], es[3]]) == s4 && Run(w, s1, fs[1..]) == s4;
  }

  /**
   A bank is sent, polled, merged and retired, and its credit goes with the local
   copy: verification found its eight bits, the base holds the reply, nothing
   expired, and the fold answers that the chip is unverified.
   */
  lemma RetiredBankIsLost(cat: Catalog)
    ensures Legal(BankWorld(), START, BankRun())
    ensures VerifyReplies(BankWorld().bits, [BANKED_REPLY], 1) == map[ProofOf(5, 3) := 8]
    ensures Counted(cat, BankWorld(), Run(BankWorld(), START, BankRun()[..4]), BANKED_MOVE)
    ensures var s := Run(BankWorld(), START, BankRun());
            && s.base.replies == [BANKED_REPLY] && s.expired == {} && !Counted(cat, BankWorld(), s, BANKED_MOVE)
            && FoldAt(cat, BankWorld(), s).moves == [RejectedUnverified]
  {
    BankRunSteps();
    BankVerifies();
    CountedWhileQueued(cat);
    LostOnceRetired(cat);
    RetiredFold(cat);
  }

  lemma CountedWhileQueued(cat: Catalog)
    ensures Counted(cat, BankWorld(), Merged(), BANKED_MOVE)
  {
    MergedHoldsInv(BankWorld());
    BankCountedIff(cat, BankWorld(), Merged(), BANKED_MOVE);
    assert Merged().queue[0] in Merged().queue && ChipProof(Merged().queue[0]) == Some((5, 3));
  }

  lemma LostOnceRetired(cat: Catalog)
    ensures !Counted(cat, BankWorld(), Merged().(queue := [], merged := map[]), BANKED_MOVE)
  {
    MergedHoldsInv(BankWorld());
    StepKeepsInv(BankWorld(), Merged(), PollRetires(0, 20, None));
    BankRetires();
    BankCountedIff(cat, BankWorld(), Merged().(queue := [], merged := map[]), BANKED_MOVE);
  }

  lemma BankVerifies()
    ensures VerifyReplies(BankWorld().bits, [BANKED_REPLY], 1) == map[ProofOf(5, 3) := 8]
  {
    assert [BANKED_REPLY][..0] == [] && [CHIP][..0] == [] && [CHIP][0] == CHIP;
    assert VerifyChips(BankWorld().bits, [CHIP], map[]) == map[ProofOf(5, 3) := 8];
  }

  lemma RetiredFold(cat: Catalog)
    ensures FoldAt(cat, BankWorld(), Merged().(queue := [], merged := map[])).moves == [RejectedUnverified]
  {
    var w, s := BankWorld(), Merged().(queue := [], merged := map[]);
    assert Input(w, s) == [BANKED_REPLY];
    LoneReply(BANKED_REPLY, 1);
    assert ProofsIn(map[]) == map[] && Seed(map[], [], 1, 1) == map[];
    UnverifiedBank(cat);
  }

  lemma UnverifiedBank(cat: Catalog)
    ensures FoldAll(cat, map[], ChipsEngine.START, [BANKED_REPLY]).moves == [RejectedUnverified]
  {
    var f := FoldStep(cat, map[], ChipsEngine.START, BANKED_REPLY);
    assert [BANKED_REPLY][1..] == [] && FoldAll(cat, map[], f, []) == f;
    assert [CHIP][1..] == [] && [CHIP][0] == CHIP && BANKED_REPLY.move.chips == [CHIP];
    var g := ChipsEngine.START.(table := Tick(ChipsEngine.START.table, BANKED_REPLY));
    var h := ApplyChip(map[], g, CHIP, true, 9);
    assert h == g.(moves := [RejectedUnverified]);
    assert ApplyChips(map[], h, [], true, 9) == h;
    assert ApplyChips(map[], g, [CHIP], true, 9) == h;
    assert f == h;
  }

  lemma MergedHoldsInv(w: World)
    requires w == BankWorld()
    ensures Inv(w, Merged())
  {
    BankIsServable();
    var s := Merged();
    assert BANKED_MOVE.(sentAt := s.queue[0].sentAt) == s.queue[0];
    assert s.queue[0].id == 1;
  }

  /** A sent move is given up only when at least the whole waiting time separates the clock from its stamp. */
  lemma GivenUpWaited(q: Queue, keys: set<MoveKey>, now: nat, owned: Option<set<Jar>>, m: QMove)
    requires m in q && m !in RetireSettled(q, keys, now, owned) && !Done(m, keys, owned)
    ensures m.sentAt.Some?
    ensures now >= m.sentAt.value + SETTLE_TTL_MS || m.sentAt.value >= now + SETTLE_TTL_MS
  {
    RetireIs(q, keys, now, owned);
  }

  /** A confirmed buy whose jar the fold does not grant, as after a tip, is kept until it times out. */
  lemma UngrantedBuyLingers(q: Queue, keys: set<MoveKey>, now: nat, owned: set<Jar>, m: QMove)
    requires m in q && m.what.Buy? && KeyOf(m) in keys && m.what.key !in owned
    requires m.sentAt.Some? && StillValid(m.sentAt.value, now)
    ensures m in RetireSettled(q, keys, now, Some(owned))
  {
    RetireIs(q, keys, now, Some(owned));
  }

  /** A refusal's confirmed twin is never recognised: no poll ever retires a burn. */
  lemma BurnsNeverMatch(replies: seq<Reply>, table: nat, author: nat, m: QMove)
    requires m.what.Burn? || m.what.Broke? || m.what.Spend?
    ensures KeyOf(m) !in PollKeys(replies, table, author)
  {
    PollKeysAre(replies, table, author);
  }
}
