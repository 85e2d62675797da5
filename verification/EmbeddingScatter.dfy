/** Requests to an OpenAI-compatible endpoint: the answers are scattered into the slots their
    index fields name, falling back to their own position when the field is out of range; a
    request that fails is made again a bounded number of times. */
module EmbeddingScatter {
  import opened Common
  import opened EmbeddingModel

  datatype Item = Item(index: int, embedding: Vector)

  datatype ScatterError = WrongLength | EmptyItem | MissingSlot

  /** The slot the `p`-th item is written to, out of `n`. */
  function Target(data: seq<Item>, n: nat, p: nat): (slot: nat)
    requires p < |data| == n
    ensures slot < n
  {
    if data[p].index < 0 || data[p].index >= n then p else data[p].index
  }

  ghost predicate OneToOne(data: seq<Item>, n: nat)
    requires |data| == n
  {
    forall p, q :: 0 <= p < q < n ==> Target(data, n, p) != Target(data, n, q)
  }

  ghost predicate Reached(data: seq<Item>, n: nat, slot: nat)
    requires |data| == n
  {
    exists p :: 0 <= p < n && Target(data, n, p) == slot
  }

  ghost predicate Onto(data: seq<Item>, n: nat)
    requires |data| == n
  {
    forall slot: nat :: slot < n ==> Reached(data, n, slot)
  }

  predicate NoneEmpty(data: seq<Item>) {
    forall p :: 0 <= p < |data| ==> |data[p].embedding| > 0
  }

  ghost function Slots(data: seq<Item>, n: nat, k: nat): set<nat>
    requires k <= |data| == n
  {
    set p: nat | p < k :: Target(data, n, p)
  }

  ghost function Range(n: nat): (r: set<nat>)
    ensures |r| == n && forall i: nat :: i in r <==> i < n
  {
    if n == 0 then {} else Range(n - 1) + {n - 1}
  }

  /** No two of the first `k` items share a slot. */
  ghost predicate Apart(data: seq<Item>, n: nat, k: nat)
    requires k <= |data| == n
  {
    forall p, q :: 0 <= p < q < k ==> Target(data, n, p) != Target(data, n, q)
  }

  lemma OneMoreSlot(data: seq<Item>, n: nat, k: nat)
    requires k < |data| == n
    ensures Slots(data, n, k + 1) == Slots(data, n, k) + {Target(data, n, k)}
    ensures Apart(data, n, k + 1) <==> Apart(data, n, k) && Target(data, n, k) !in Slots(data, n, k)
  {
    assert Target(data, n, k) in Slots(data, n, k) <==> exists p :: 0 <= p < k && Target(data, n, p) == Target(data, n, k);
  }

  /** `k` items reach at most `k` slots, and exactly `k` only if no two share one. */
  lemma {:induction false} SlotsSize(data: seq<Item>, n: nat, k: nat)
    requires k <= |data| == n
    ensures |Slots(data, n, k)| <= k
    ensures |Slots(data, n, k)| == k <==> Apart(data, n, k)
  {
    if k > 0 {
      SlotsSize(data, n, k - 1);
      OneMoreSlot(data, n, k - 1);
      if Target(data, n, k - 1) in Slots(data, n, k - 1) {
        assert Slots(data, n, k) == Slots(data, n, k - 1);
      }
    }
  }

  /** Pigeonhole, both ways: with as many items as slots, every slot is reached exactly when
      no two items share one. */
  lemma OntoIffOneToOne(data: seq<Item>, n: nat)
    requires |data| == n
    ensures Onto(data, n) <==> OneToOne(data, n)
  {
    SlotsSize(data, n, n);
    var slots := Slots(data, n, n);
    SubsetSize(slots, Range(n));
    forall slot: nat | slot < n ensures slot in slots <==> Reached(data, n, slot) {
    }
    if Onto(data, n) {
      assert slots == Range(n);
    }
  }

  // ---- in terms of the answer itself ----

  predicate NamesASlot(data: seq<Item>, p: nat)
    requires p < |data|
  {
    0 <= data[p].index < |data|
  }

  /** Every vector is in the slot its index names, or at its own position when the index names
      none. */
  ghost predicate InItsSlot(data: seq<Item>, vectors: seq<Vector>, normalize: Vector -> Vector) {
    && |vectors| == |data|
    && forall p :: 0 <= p < |data| ==>
         if NamesASlot(data, p) then vectors[data[p].index] == normalize(data[p].embedding)
         else vectors[p] == normalize(data[p].embedding)
  }

  /** No two items want one slot: no two name the same, and none names the position of an item
      that names none. */
  predicate NoClash(data: seq<Item>) {
    forall p, q :: 0 <= p < |data| && 0 <= q < |data| && p != q && NamesASlot(data, p) ==>
      data[p].index != if NamesASlot(data, q) then data[q].index else q
  }

  lemma OneToOneIsNoClash(data: seq<Item>)
    ensures OneToOne(data, |data|) <==> NoClash(data)
  {
    var n := |data|;
    if NoClash(data) {
      forall p, q | 0 <= p < q < n ensures Target(data, n, p) != Target(data, n, q) {
        assert NamesASlot(data, p) ==> data[p].index != if NamesASlot(data, q) then data[q].index else q;
        assert NamesASlot(data, q) ==> data[q].index != if NamesASlot(data, p) then data[p].index else p;
      }
    } else {
      var p, q :| 0 <= p < n && 0 <= q < n && p != q && NamesASlot(data, p) && data[p].index == if NamesASlot(data, q) then data[q].index else q;
      assert Target(data, n, p) == Target(data, n, q);
    }
  }

  lemma TargetsAreSlots(data: seq<Item>, vectors: seq<Vector>, normalize: Vector -> Vector)
    requires |vectors| == |data| && forall p :: 0 <= p < |data| ==> vectors[Target(data, |data|, p)] == normalize(data[p].embedding)
    ensures InItsSlot(data, vectors, normalize)
  {
    forall p | 0 <= p < |data|
      ensures if NamesASlot(data, p) then vectors[data[p].index] == normalize(data[p].embedding)
              else vectors[p] == normalize(data[p].embedding)
    {
      assert Target(data, |data|, p) == if NamesASlot(data, p) then data[p].index else p;
    }
  }

  /** The scatter succeeds exactly when the server sent as many answers as questions, none
      of them empty, and in slots of their own; then every answer, normalized, is in the
      slot it was meant for. */
  method EmbedOnce(n: nat, data: seq<Item>, normalize: Vector -> Vector)
    returns (r: Result<array<Vector>, ScatterError>)
    requires forall v :: |normalize(v)| == |v|
    ensures r.Ok? <==> |data| == n && NoneEmpty(data) && OneToOne(data, n)
    ensures r.Ok? ==>
      && r.value.Length == n
      && forall p :: 0 <= p < n ==> r.value[Target(data, n, p)] == normalize(data[p].embedding)
    ensures r.Err? && r.error.MissingSlot? ==> |data| == n && NoneEmpty(data)
    ensures r.Ok? <==> |data| == n && NoClash(data) && forall p :: 0 <= p < n ==> |data[p].embedding| > 0
    ensures r.Ok? ==> InItsSlot(data, r.value[..], normalize)
  {
    OneToOneIsNoClash(data);
    if |data| != n {
      return Err(WrongLength);
    }
    var vectors := new Vector[n](_ => []);
    var p := 0;
    while p < n
      invariant 0 <= p <= n
      invariant NoneEmpty(data[..p])
      invariant forall slot: nat :: slot < n ==> (|vectors[slot]| > 0 <==> slot in Slots(data, n, p))
      invariant OneToOne(data, n) ==> forall q :: 0 <= q < p ==> vectors[Target(data, n, q)] == normalize(data[q].embedding)
    {
      if |data[p].embedding| == 0 {
        return Err(EmptyItem);
      }
      assert Slots(data, n, p + 1) == Slots(data, n, p) + {Target(data, n, p)};
      vectors[Target(data, n, p)] := normalize(data[p].embedding);
      p := p + 1;
    }
    assert data[..n] == data;
    OntoIffOneToOne(data, n);
    var slot := 0;
    while slot < n
      invariant 0 <= slot <= n
      invariant forall s :: 0 <= s < slot ==> |vectors[s]| > 0
    {
      if |vectors[slot]| == 0 {
        assert slot !in Slots(data, n, n) && !Reached(data, n, slot);
        return Err(MissingSlot);
      }
      slot := slot + 1;
    }
    forall s: nat | s < n ensures Reached(data, n, s) {
      assert s in Slots(data, n, n);
    }
    TargetsAreSlots(data, vectors[..], normalize);
    return Ok(vectors);
  }

  // ---- retries ----

  const ATTEMPTS := 3

  datatype Reply = Unreachable | Refused(code: int) | Garbled | Answered(data: seq<Item>)

  datatype BatchError = Interrupted | NoAnswer(reply: Reply)

  /** A whole answer with every vector in a slot of its own. */
  ghost predicate Good(n: nat, reply: Reply) {
    reply.Answered? && |reply.data| == n && NoneEmpty(reply.data) && OneToOne(reply.data, n)
  }

  /** Only a status below 500 other than 429 is final; an answer that makes no sense is tried
      again like one that never came. */
  predicate Retryable(reply: Reply) {
    reply.Refused? ==> reply.code == 429 || reply.code >= 500
  }

  /** The attempts before the `k`-th all failed and left room for another. */
  ghost predicate Retried(n: nat, server: nat -> Reply, cancelled: nat -> bool, k: nat) {
    forall j :: 0 <= j < k ==> !Good(n, server(j)) && Retryable(server(j)) && !cancelled(j)
  }

  method Attempt(n: nat, reply: Reply, normalize: Vector -> Vector) returns (r: Result<array<Vector>, BatchError>)
    requires forall v :: |normalize(v)| == |v|
    ensures r.Ok? <==> Good(n, reply)
    ensures r.Ok? ==>
      && r.value.Length == n
      && forall p :: 0 <= p < n ==> r.value[Target(reply.data, n, p)] == normalize(reply.data[p].embedding)
    ensures r.Ok? <==>
      reply.Answered? && |reply.data| == n && NoClash(reply.data) && forall p :: 0 <= p < n ==> |reply.data[p].embedding| > 0
    ensures r.Ok? ==> InItsSlot(reply.data, r.value[..], normalize)
  {
    if !reply.Answered? {
      return Err(NoAnswer(reply));
    }
    var scattered := EmbedOnce(n, reply.data, normalize);
    r := if scattered.Ok? then Ok(scattered.value) else Err(NoAnswer(reply));
  }

  /** The first good answer, after at most three requests; `cancelled(k)` says that the wait
      after the k-th failure was cut short. */
  method EmbedBatch(n: nat, server: nat -> Reply, cancelled: nat -> bool, normalize: Vector -> Vector)
    returns (r: Result<array<Vector>, BatchError>, attempts: nat)
    requires forall v :: |normalize(v)| == |v|
    ensures n == 0 ==> attempts == 0 && r.Ok? && r.value.Length == 0
    ensures n > 0 ==> 1 <= attempts <= ATTEMPTS && Retried(n, server, cancelled, attempts - 1)
    ensures n > 0 ==> (r.Ok? <==> Good(n, server(attempts - 1)))
    ensures n > 0 && r.Ok? ==>
      var data := server(attempts - 1).data;
      r.value.Length == n && forall p :: 0 <= p < n ==> r.value[Target(data, n, p)] == normalize(data[p].embedding)
    ensures n > 0 && r.Ok? ==> server(attempts - 1).Answered? && InItsSlot(server(attempts - 1).data, r.value[..], normalize)
    ensures attempts <= 3
    ensures forall j :: 0 <= j < attempts - 1 && server(j).Refused? ==> server(j).code == 429 || server(j).code >= 500
    ensures n > 0 && r.Err? && attempts < 3 ==>
      cancelled(attempts - 1) || (server(attempts - 1).Refused? && server(attempts - 1).code < 500 && server(attempts - 1).code != 429)
    ensures n > 0 && r.Err? ==> attempts == ATTEMPTS || !Retryable(server(attempts - 1)) || cancelled(attempts - 1)
  {
    attempts := 0;
    if n == 0 {
      var none := new Vector[0];
      return Ok(none), attempts;
    }
    r := Err(Interrupted);
    while attempts < ATTEMPTS
      invariant 0 <= attempts <= ATTEMPTS
      invariant attempts > 0 ==> r.Err? && !Good(n, server(attempts - 1)) && Retryable(server(attempts - 1))
      invariant attempts > 0 ==> Retried(n, server, cancelled, attempts - 1)
    {
      if attempts > 0 && cancelled(attempts - 1) {
        return Err(Interrupted), attempts;
      }
      r := Attempt(n, server(attempts), normalize);
      attempts := attempts + 1;
      if r.Ok? || !Retryable(server(attempts - 1)) {
        return;
      }
    }
  }
}
