/** The chain of a12 blockchain.c: `bc_init`, `bc_add_block`, `bc_verify`, and what an
    accepted chain says about the blocks in it. The hash function is a parameter. */
module Blockchains {
  import Bytes
  import opened Digests
  import opened Mining

  const BLOCKCHAIN_SIZE: nat := 32

  datatype Option<T> = None | Some(value: T)

  datatype Block = Block(core: Core, hash: Digest)

  /** What `bc_verify` demands of the block at position `i`. It never looks at `index`. */
  predicate BlockOk(chain: seq<Block>, i: nat, difficulty: Digest, hash: Core -> Digest)
    requires i < |chain|
  {
    && hash(chain[i].core) == chain[i].hash
    && MeetsDifficulty(chain[i].hash, difficulty)
    && chain[i].core.pHash == (if i == 0 then ZERO_DIGEST else chain[i - 1].hash)
  }

  predicate Accepted(chain: seq<Block>, difficulty: Digest, hash: Core -> Digest) {
    forall i: nat :: i < |chain| ==> BlockOk(chain, i, difficulty, hash)
  }

  /** The stored hash of the block before position `i`, or 32 zero bytes at the start. */
  function PreviousHash(chain: seq<Block>, i: nat): (h: Digest)
    requires i <= |chain|
    ensures i == 0 ==> |h| == 32 && forall k :: 0 <= k < 32 ==> h[k] == 0
    ensures i > 0 ==> h == chain[i - 1].hash
  {
    if i == 0 then ZERO_DIGEST else chain[i - 1].hash
  }

  /** What an accepted chain is, in terms of hashes, numbers and links alone. */
  lemma AcceptedMeans(chain: seq<Block>, difficulty: Digest, hash: Core -> Digest)
    ensures Accepted(chain, difficulty, hash) <==> forall i: nat :: i < |chain| ==>
              && chain[i].hash == hash(chain[i].core) && BigEndian(chain[i].hash) <= BigEndian(difficulty)
              && chain[i].core.pHash == PreviousHash(chain, i)
  {
    forall i: nat | i < |chain|
      ensures BlockOk(chain, i, difficulty, hash) <==>
              && chain[i].hash == hash(chain[i].core) && BigEndian(chain[i].hash) <= BigEndian(difficulty)
              && chain[i].core.pHash == PreviousHash(chain, i)
    {
      DifficultyIsNumeric(chain[i].hash, difficulty);
    }
  }

  /** The core that `bc_add_block` prepares before the search: nonce zero, linked to the last hash. */
  function NewCore(chain: seq<Block>, data: seq<Bytes.Byte>, now: Timespec): Core {
    Core(|chain|, now, data, if chain == [] then ZERO_DIGEST else chain[|chain| - 1].hash, 0)
  }

  class Blockchain {
    const blocks: array<Block>
    var count: nat
    var difficulty: Digest

    ghost predicate Valid()
      reads this
    {
      blocks.Length == BLOCKCHAIN_SIZE && count <= BLOCKCHAIN_SIZE
    }

    function Chain(): seq<Block>
      requires Valid()
      reads this, blocks
    {
      blocks[..count]
    }

    constructor ()
      ensures Valid() && fresh(blocks)
    {
      blocks := new Block[BLOCKCHAIN_SIZE](_ => Block(Core(0, Timespec(0, 0), [], ZERO_DIGEST, 0), ZERO_DIGEST));
      count := 0;
      difficulty := ZERO_DIGEST;
    }

    /** `bc_init`: an empty chain; without a target, one that every hash meets. */
    method Init(target: Option<Digest>)
      requires Valid()
      modifies this, blocks
      ensures Valid() && Chain() == []
      ensures target.Some? ==> difficulty == target.value
      ensures target.None? ==> forall h: Digest :: MeetsDifficulty(h, difficulty)
      ensures target.None? ==> forall h: Digest :: BigEndian(h) <= BigEndian(difficulty)
    {
      forall i | 0 <= i < blocks.Length {
        blocks[i] := Block(Core(0, Timespec(0, 0), [], ZERO_DIGEST, 0), ZERO_DIGEST);
      }
      count := 0;
      match target {
        case Some(d) => difficulty := d;
        case None =>
          difficulty := MAX_DIGEST;
          forall h: Digest
            ensures MeetsDifficulty(h, MAX_DIGEST) && BigEndian(h) <= BigEndian(MAX_DIGEST)
          {
            NoDifficultyAcceptsAll(h);
            DifficultyIsNumeric(h, MAX_DIGEST);
          }
      }
    }

    ghost function JobFor(data: seq<Bytes.Byte>, now: Timespec, hash: Core -> Digest): Job
      requires Valid()
      reads this, blocks
    {
      Job(NewCore(Chain(), data, now), difficulty, hash)
    }

    /** `bc_add_block`. `now` is None when `clock_gettime` fails; `created` is the number of
        `pthread_create` calls that succeed; `sched` is the order in which the workers move,
        and the calls to `pthread_join` return only if it drives all of them to the end.
        `shared` is the new slot's core: it is the memory the workers race to write. */
    method AddBlock(data: seq<Bytes.Byte>, now: Option<Timespec>, created: nat, sched: seq<nat>, hash: Core -> Digest)
      returns (r: int)
      requires Valid() && created <= NUM_THREADS && Schedule(sched, created)
      requires count < BLOCKCHAIN_SIZE && now.Some? ==>
                 Exec(JobFor(data, now.value, hash), Start(JobFor(data, now.value, hash), created), sched).AllDone()
      modifies this`count, blocks
      ensures Valid()
      ensures r == if old(count) < BLOCKCHAIN_SIZE && now.Some? && created == NUM_THREADS then 0 else -1
      ensures r != 0 ==> Chain() == old(Chain())
      ensures r == 0 ==> |Chain()| == old(count) + 1 && Chain()[..old(count)] == old(Chain())
      ensures r == 0 ==>
                var core := Chain()[old(count)].core;
                core == NewCore(old(Chain()), data, now.value).(nonce := core.nonce)
      ensures r == 0 ==> Chain()[old(count)].core.nonce < NONCE_SPACE
      ensures r == 0 ==> BlockOk(Chain(), old(count), difficulty, hash)
      ensures r == 0 <==> old(count) < 32 && now.Some? && created == 8
      ensures r == 0 ==>
                var b := Chain()[old(count)];
                && b.core.data == data && b.core.index == old(count) && b.core.timestamp == now.value
                && b.core.pHash == PreviousHash(Chain(), old(count)) && b.core.nonce < 0x1_0000_0000
                && b.hash == hash(b.core) && BigEndian(b.hash) <= BigEndian(difficulty)
      ensures Accepted(Chain(), difficulty, hash) <==> Accepted(old(Chain()), difficulty, hash)
    {
      if count >= BLOCKCHAIN_SIZE { return -1; }
      var last := count;
      if now.None? {
        blocks[last] := blocks[last].(core := Core(last, Timespec(0, 0), [], ZERO_DIGEST, 0));
        return -1;
      }
      var pHash := ZERO_DIGEST;
      if last != 0 { pHash := blocks[last - 1].hash; }
      blocks[last] := blocks[last].(core := Core(last, now.value, data, pHash, 0));
      var template := blocks[last].core;
      var job := Job(template, difficulty, hash);
      assert job == old(JobFor(data, now.value, hash));

      var workers := PrepareWorkers(created);
      var race := Race(false, blocks[last].core, workers);
      for k := 0 to |sched|
        invariant race == Exec(job, Start(job, created), sched[..k])
        invariant count == last && race.core == blocks[last].core
        invariant blocks[..last] == old(blocks[..last])
      {
        assert sched[..k + 1][..k] == sched[..k];
        assert Schedule(sched[..k], created) && Schedule(sched[..k + 1], created);
        race := Step(job, race, sched[k]);
        blocks[last] := blocks[last].(core := race.core);
      }
      assert sched[..|sched|] == sched;
      ExecKeepsInv(job, created, sched);
      if created < NUM_THREADS { return -1; }
      JoinedMeansFound(job, sched);
      if !race.found { assert false; return -1; }
      var h := hash(blocks[last].core);
      blocks[last] := blocks[last].(hash := h);
      count := count + 1;
      assert Chain()[..last] == old(Chain());
      AcceptedAppend(old(Chain()), blocks[last], difficulty, hash);
      assert Chain() == old(Chain()) + [blocks[last]];
      DifficultyIsNumeric(h, difficulty);
      return 0;
    }

    /** `bc_verify` returns 0 exactly on accepted chains. */
    method Verify(hash: Core -> Digest) returns (r: int)
      requires Valid()
      ensures r == if Accepted(Chain(), difficulty, hash) then 0 else -1
      ensures r == 0 <==> forall i: nat :: i < count ==>
                var b := Chain()[i];
                && b.hash == hash(b.core) && BigEndian(b.hash) <= BigEndian(difficulty)
                && b.core.pHash == PreviousHash(Chain(), i)
    {
      AcceptedMeans(Chain(), difficulty, hash);
      for i := 0 to count
        invariant forall k: nat :: k < i ==> BlockOk(Chain(), k, difficulty, hash)
      {
        var block := blocks[i];
        assert block == Chain()[i];
        var calculated := hash(block.core);
        if Memcmp(calculated, block.hash) != 0 {
          MemcmpIsNumericOrder(calculated, block.hash);
          assert !BlockOk(Chain(), i, difficulty, hash);
          return -1;
        }
        MemcmpIsNumericOrder(calculated, block.hash);
        if !MeetsDifficulty(block.hash, difficulty) {
          assert !BlockOk(Chain(), i, difficulty, hash);
          return -1;
        }
        var expected := ZERO_DIGEST;
        if i > 0 { expected := blocks[i - 1].hash; }
        MemcmpIsNumericOrder(block.core.pHash, expected);
        if Memcmp(block.core.pHash, expected) != 0 {
          assert !BlockOk(Chain(), i, difficulty, hash);
          return -1;
        }
      }
      return 0;
    }
  }

  lemma AcceptedAppend(chain: seq<Block>, b: Block, difficulty: Digest, hash: Core -> Digest)
    requires BlockOk(chain + [b], |chain|, difficulty, hash)
    ensures Accepted(chain + [b], difficulty, hash) <==> Accepted(chain, difficulty, hash)
  {
    var longer := chain + [b];
    forall i: nat | i < |chain|
      ensures BlockOk(longer, i, difficulty, hash) <==> BlockOk(chain, i, difficulty, hash)
    {
    }
  }

  // ---------------------------------------------------------------- tamper evidence

  /** Two different cores at these positions with the same hash. */
  predicate Collides(a: seq<Block>, i: nat, b: seq<Block>, j: nat, hash: Core -> Digest) {
    i < |a| && j < |b| && a[i].core != b[j].core && hash(a[i].core) == hash(b[j].core)
  }

  /** A core whose hash is the all-zero digest. */
  predicate HashesToZero(a: seq<Block>, i: nat, hash: Core -> Digest) {
    i < |a| && hash(a[i].core) == ZERO_DIGEST
  }

  /** Blocks with the same stored hash are equal or collide. */
  lemma SameBlock(a: seq<Block>, i: nat, b: seq<Block>, j: nat, difficulty: Digest, hash: Core -> Digest)
    requires i < |a| && j < |b| && BlockOk(a, i, difficulty, hash) && BlockOk(b, j, difficulty, hash)
    requires a[i].hash == b[j].hash
    ensures a[i] == b[j] || Collides(a, i, b, j, hash)
  {
  }

  /** Equal blocks link to equal hashes before them. */
  lemma SameLink(a: seq<Block>, i: nat, b: seq<Block>, j: nat, difficulty: Digest, hash: Core -> Digest)
    requires i + 1 < |a| && j + 1 < |b| && a[i + 1] == b[j + 1]
    requires BlockOk(a, i + 1, difficulty, hash) && BlockOk(b, j + 1, difficulty, hash)
    ensures a[i].hash == b[j].hash
  {
  }

  lemma TailCons(a: seq<Block>, i: nat, b: seq<Block>, j: nat)
    requires i < |a| && j < |b| && a[i] == b[j] && a[i + 1..] == b[j + 1..]
    ensures a[i..] == b[j..]
  {
    assert a[i..] == [a[i]] + a[i + 1..];
    assert b[j..] == [b[j]] + b[j + 1..];
  }

  /** Two accepted chains ending in the same hash agree block by block counted from the end,
      unless the walk back meets a collision (at distance `back` from the end of both). */
  lemma {:induction false} SameTail(a: seq<Block>, b: seq<Block>, difficulty: Digest, hash: Core -> Digest, k: nat)
    returns (back: nat)
    requires Accepted(a, difficulty, hash) && Accepted(b, difficulty, hash)
    requires 0 < k <= |a| && k <= |b|
    requires a[|a| - 1].hash == b[|b| - 1].hash
    ensures a[|a| - k..] == b[|b| - k..]
         || (1 <= back <= k && Collides(a, |a| - back, b, |b| - back, hash))
  {
    var i, j := |a| - k, |b| - k;
    back := k;
    if k > 1 {
      back := SameTail(a, b, difficulty, hash, k - 1);
      if a[i + 1..] != b[j + 1..] { return; }
      back := k;
      assert a[i + 1] == a[i + 1..][0] && b[j + 1] == b[j + 1..][0];
      SameLink(a, i, b, j, difficulty, hash);
    }
    SameBlock(a, i, b, j, difficulty, hash);
    if a[i] == b[j] { TailCons(a, i, b, j); }
  }

  /** The last stored hash pins down the whole accepted chain: two accepted chains, of any
      lengths, that end in the same hash are equal, or exhibit two distinct cores with the
      same hash, or (only when their lengths differ) a core that hashes to all zeros. */
  lemma LastHashFixesChain(a: seq<Block>, b: seq<Block>, difficulty: Digest, hash: Core -> Digest)
    requires Accepted(a, difficulty, hash) && Accepted(b, difficulty, hash)
    requires a != [] && b != [] && a[|a| - 1].hash == b[|b| - 1].hash
    ensures a == b
         || (exists i: nat, j: nat :: Collides(a, i, b, j, hash))
         || (|a| != |b| && exists i: nat :: HashesToZero(a, i, hash) || HashesToZero(b, i, hash))
  {
    var k := if |a| <= |b| then |a| else |b|;
    var back := SameTail(a, b, difficulty, hash, k);
    if a[|a| - k..] == b[|b| - k..] {
      assert a[|a| - k..][0] == b[|b| - k..][0];
      if |a| == |b| {
        assert a[0..] == a && b[0..] == b;
      } else if |a| < |b| {
        assert BlockOk(a, 0, difficulty, hash) && BlockOk(b, |b| - k, difficulty, hash);
        assert BlockOk(b, |b| - k - 1, difficulty, hash);
        assert HashesToZero(b, |b| - k - 1, hash);
      } else {
        assert BlockOk(b, 0, difficulty, hash) && BlockOk(a, |a| - k, difficulty, hash);
        assert BlockOk(a, |a| - k - 1, difficulty, hash);
        assert HashesToZero(a, |a| - k - 1, hash);
      }
    } else {
      assert Collides(a, |a| - back, b, |b| - back, hash);
    }
  }

  /** Editing the core of one block of an accepted chain while leaving every stored hash
      alone keeps the chain accepted exactly when the new core keeps the link to the
      previous hash and collides with the old one. */
  lemma TamperingNeedsCollision(chain: seq<Block>, i: nat, core: Core, difficulty: Digest, hash: Core -> Digest)
    requires Accepted(chain, difficulty, hash) && i < |chain| && core != chain[i].core
    ensures var edited := chain[i := chain[i].(core := core)];
            Accepted(edited, difficulty, hash) <==>
            Collides(edited, i, chain, i, hash) && core.pHash == chain[i].core.pHash
  {
    var edited := chain[i := chain[i].(core := core)];
    assert BlockOk(chain, i, difficulty, hash);
    if Accepted(edited, difficulty, hash) {
      assert BlockOk(edited, i, difficulty, hash);
    }
    if Collides(edited, i, chain, i, hash) && core.pHash == chain[i].core.pHash {
      forall k: nat | k < |edited|
        ensures BlockOk(edited, k, difficulty, hash)
      {
        assert BlockOk(chain, k, difficulty, hash);
      }
    }
  }
}
