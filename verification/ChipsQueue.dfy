/**
 The pending-move queue and the sender's pure decisions
 (chips-client/src/lib/chipsQueue.ts, chipsSender.ts, moveKey.ts).
 */
module ChipsQueue {
  import opened Wrappers
  import opened ChipsEngine

  const MAX_BATCH: nat := 24
  const MAX_BITS: nat := 40

  /** `what` is the move to send, a bank holding one chip; `sentAt` is set once its submission succeeded. */
  datatype QMove = QMove(id: nat, table: nat, author: nat, what: Move, ms: nat, sentAt: Option<nat>)

  type Queue = seq<QMove>

  predicate IsKeyText(s: string) {
    s != "" && forall i | 0 <= i < |s| :: 'a' <= s[i] <= 'z' || '0' <= s[i] <= '9'
  }

  predicate GoodChip(c: Chip) {
    BANK_MIN_BITS <= c.bits <= MAX_BITS && c.nonce <= 0xFFFF_FFFF_FFFF_FFFF && c.ms > 0
  }

  /** Whether the entry can be turned into a body at all. */
  predicate Submittable(m: QMove) {
    match m.what
    case Bank(chips) => |chips| == 1 && GoodChip(chips[0])
    case Dip(amount) => amount < 1_000_000_000_000_000 && m.ms > 0
    case Tip(keep) => m.ms > 0 && (keep.Some? ==> IsKeyText(keep.value) && 'a' <= keep.value[0] <= 'z')
    case Burn(key) => IsKeyText(key) && m.ms > 0
    case Buy(key) => IsKeyText(key) && m.ms > 0
    case Broke(_) => m.ms > 0
    case Spend(ability, cost) => IsKeyText(ability) && cost > 0 && m.ms > 0
    case Oversize => false
    case Unparsed => false
  }

  predicate Active(m: QMove, table: nat, author: nat) {
    m.table == table && m.author == author
  }

  /** May be sent for this table and identity. */
  predicate Sendable(m: QMove, table: nat, author: nat) {
    Active(m, table, author) && m.sentAt.None? && Submittable(m)
  }

  /** Entries that may be sent, in queue order. */
  function SendableOf(q: Queue, table: nat, author: nat): Queue {
    if q == [] then []
    else (if Sendable(q[0], table, author) then [q[0]] else []) + SendableOf(q[1..], table, author)
  }

  /** Leading banks of `q`, at most `room` of them. */
  function LeadingBanks(q: Queue, room: nat): nat {
    if q == [] || room == 0 || !q[0].what.Bank? then 0 else 1 + LeadingBanks(q[1..], room - 1)
  }

  /** The unit to submit next: one move, or a run of banks. */
  function HeadBatch(q: Queue): Queue {
    if q == [] then [] else if !q[0].what.Bank? then [q[0]] else q[..Min(LeadingBanks(q, MAX_BATCH), |q|)]
  }

  ghost predicate AllBanks(moves: Queue) {
    forall i | 0 <= i < |moves| :: moves[i].what.Bank?
  }

  /**
   What one submission may carry from the head of `q`: a lone move that is no bank, or
   as many banks as stand together there, up to twenty-four.
   */
  ghost predicate IsBatch(q: Queue, moves: Queue) {
    && moves <= q && (q != [] ==> moves != [])
    && (q != [] && !q[0].what.Bank? ==> |moves| == 1)
    && (q != [] && q[0].what.Bank? ==>
          && AllBanks(moves) && |moves| <= 24
          && (|moves| == 24 || |moves| == |q| || !q[|moves|].what.Bank?))
  }

  method TakeBatch(q: Queue) returns (moves: Queue)
    ensures moves == HeadBatch(q) && IsBatch(q, moves)
  {
    if q == [] {
      return [];
    }
    if !q[0].what.Bank? {
      return [q[0]];
    }
    moves := [];
    var i := 0;
    while i < |q| && q[i].what.Bank? && |moves| < MAX_BATCH
      invariant i == |moves| <= |q| && moves == q[..i] && i <= MAX_BATCH && AllBanks(moves)
    {
      moves := moves + [q[i]];
      i := i + 1;
    }
    BatchIs(q);
    OneBatchOnly(q, moves, HeadBatch(q));
  }

  lemma {:induction false} LeadingBanksAre(q: Queue, room: nat)
    ensures var n := LeadingBanks(q, room);
            && n <= |q| && n <= room && (n == room || n == |q| || !q[n].what.Bank?)
            && (q != [] && room > 0 && q[0].what.Bank? ==> n > 0)
            && forall i | 0 <= i < n :: q[i].what.Bank?
    decreases |q|
  {
    if q != [] && room > 0 && q[0].what.Bank? {
      LeadingBanksAre(q[1..], room - 1);
      var m := LeadingBanks(q[1..], room - 1);
      assert forall i | 0 < i <= m :: q[i] == q[1..][i - 1];
      assert m < |q[1..]| ==> q[1..][m] == q[m + 1];
    }
  }

  lemma BatchIs(q: Queue)
    ensures IsBatch(q, HeadBatch(q))
  {
    LeadingBanksAre(q, MAX_BATCH);
  }

  /** No two batches can be taken from one queue. */
  lemma OneBatchOnly(q: Queue, a: Queue, b: Queue)
    requires IsBatch(q, a) && IsBatch(q, b)
    ensures a == b
  {
    assert a == q[..|a|] && b == q[..|b|];
  }

  lemma BatchIsPrefix(q: Queue)
    ensures HeadBatch(q) <= q && (q != [] ==> HeadBatch(q) != [])
  {
    BatchIs(q);
  }

  function Plan(q: Queue, table: nat, author: nat): Queue {
    HeadBatch(SendableOf(q, table, author))
  }

  predicate HasId(moves: Queue, id: nat) {
    exists i | 0 <= i < |moves| :: moves[i].id == id
  }

  /** The ack: marks, never deletes, and never re-stamps. */
  function MarkSent(q: Queue, taken: Queue, at: nat): Queue {
    if q == [] then []
    else [if HasId(taken, q[0].id) && q[0].sentAt.None? then q[0].(sentAt := Some(at)) else q[0]] + MarkSent(q[1..], taken, at)
  }

  // ------------------------------------------------------------------ facts

  ghost predicate Rising(q: Queue) {
    forall i, j | 0 <= i < j < |q| :: q[i].id < q[j].id
  }

  lemma {:induction false} SendableIs(q: Queue, table: nat, author: nat)
    ensures forall m :: m in SendableOf(q, table, author) <==> m in q && Sendable(m, table, author)
    ensures Rising(q) ==> Rising(SendableOf(q, table, author))
    decreases |q|
  {
    if q != [] {
      SendableIs(q[1..], table, author);
      assert q == [q[0]] + q[1..];
      var rest := SendableOf(q[1..], table, author);
      if Rising(q) {
        forall i | 0 <= i < |rest|
          ensures q[0].id < rest[i].id
        {
          assert rest[i] in q[1..];
        }
      }
    }
  }

  lemma {:induction false} MarkSentIs(q: Queue, taken: Queue, at: nat)
    ensures |MarkSent(q, taken, at)| == |q|
    ensures forall i | 0 <= i < |q| ::
              MarkSent(q, taken, at)[i] ==
              if HasId(taken, q[i].id) && q[i].sentAt.None? then q[i].(sentAt := Some(at)) else q[i]
    decreases |q|
  {
    if q != [] {
      MarkSentIs(q[1..], taken, at);
    }
  }

  /** The plan is the batch at the head of what may be sent. */
  lemma PlanIsBatch(q: Queue, table: nat, author: nat)
    ensures IsBatch(SendableOf(q, table, author), Plan(q, table, author))
  {
    BatchIs(SendableOf(q, table, author));
  }

  /** Whatever is planned is active, unsent and submittable, and nothing sendable with a smaller id is left behind. */
  lemma PlanIs(q: Queue, table: nat, author: nat)
    requires Rising(q)
    ensures var p := Plan(q, table, author);
            && Rising(p)
            && (forall m <- p :: m in q && Sendable(m, table, author))
            && (forall m <- q :: Sendable(m, table, author) ==> p != [] && (m in p || forall t <- p :: t.id < m.id))
            && (p == [] <==> forall m <- q :: !Sendable(m, table, author))
  {
    var s, p := SendableOf(q, table, author), Plan(q, table, author);
    SendableIs(q, table, author);
    BatchIsPrefix(s);
    assert forall i | 0 <= i < |p| :: p[i] == s[i];
    if s != [] {
      assert s[0] in s;
    }
    forall m <- q | Sendable(m, table, author)
      ensures p != [] && (m in p || forall t <- p :: t.id < m.id)
    {
      assert m in s;
      var i :| 0 <= i < |s| && s[i] == m;
      if i < |p| {
        assert p[i] == m;
      }
    }
  }

  // ------------------------------------------------------------------ what fits on the wire

  ghost predicate LowerCaseOrDigit(c: char) {
    97 <= c as int <= 122 || 48 <= c as int <= 57
  }

  /** Moves that can be written as a body, by the limits of the grammar. */
  lemma SubmittableIff(m: QMove)
    ensures Submittable(m) <==>
            match m.what
            case Bank(chips) => |chips| == 1 && 8 <= chips[0].bits <= 40 && chips[0].nonce < 0x1_0000_0000_0000_0000 && chips[0].ms > 0
            case Dip(amount) => amount < 1_000_000_000_000_000 && m.ms > 0
            case Tip(keep) => m.ms > 0 && (keep.None? || (KeyText(keep.value) && 97 <= keep.value[0] as int <= 122))
            case Burn(key) => m.ms > 0 && KeyText(key)
            case Buy(key) => m.ms > 0 && KeyText(key)
            case Broke(_) => m.ms > 0
            case Spend(ability, cost) => m.ms > 0 && cost > 0 && KeyText(ability)
            case _ => false
  {
    match m.what {
      case Tip(keep) =>
        if keep.Some? {
          KeyTextIff(keep.value);
        }
      case Burn(key) => KeyTextIff(key);
      case Buy(key) => KeyTextIff(key);
      case Spend(ability, _) => KeyTextIff(ability);
      case _ =>
    }
  }

  ghost predicate KeyText(s: string) {
    |s| > 0 && forall i | 0 <= i < |s| :: LowerCaseOrDigit(s[i])
  }

  lemma KeyTextIff(s: string)
    ensures IsKeyText(s) <==> KeyText(s)
  {
  }
}
