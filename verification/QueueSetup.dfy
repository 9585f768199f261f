// Setting up the I/O queues of a PCIe controller: how vectors and queues are shared
// out over default, read and poll queues, and the retry with fewer of them.
module QueueSetup {
  import opened Arith

  // An I/O queue brought up: whether it is polled, and its vector if it is not.
  datatype IoQueue = IoQueue(polled: bool, vector: nat)

  // What pci_alloc_irq_vectors_affinity gives in a round, an error when not positive;
  // the error of requesting the admin queue's interrupt in a round, or 0; which queues
  // can have memory; how creating a queue ends in a round: 0, an error below it, or a
  // status of the controller above it.
  datatype Env = Env(
    barFits: nat -> bool,
    vectors: nat -> int,
    adminIrq: nat -> int,
    allocates: nat -> bool,
    creates: (nat, nat) -> int)

  datatype Shares = Shares(defaults: nat, forReads: nat)

  // nvme_calc_irq_sets
  function CalcIrqSets(nrirqs: nat, writeQueues: nat): Shares {
    var n := if nrirqs == 0 then 1 else nrirqs;
    var forReads :=
      if nrirqs == 0 then 0
      else if nrirqs == 1 || writeQueues == 0 then 0
      else if writeQueues >= nrirqs then 1
      else nrirqs - writeQueues;
    Shares(n - forReads, forReads)
  }

  lemma SharesOut(nrirqs: nat, writeQueues: nat)
    ensures var s := CalcIrqSets(nrirqs, writeQueues);
      && s.defaults >= 1 && s.defaults + s.forReads == (if nrirqs == 0 then 1 else nrirqs)
      && (s.forReads > 0 <==> nrirqs > 1 && writeQueues > 0)
      && (s.forReads > 0 ==> s.defaults == Min(writeQueues, nrirqs - 1))
  {
  }

  // How many queues have memory when those up to maxQid have been asked for it, and how
  // many of max come up in a round: as far as the first that fails.
  function Allocated(env: Env, have: nat, maxQid: nat): nat
    decreases maxQid - have
  {
    if have >= maxQid || !env.allocates(have + 1) then have else Allocated(env, have + 1, maxQid)
  }

  function Created(env: Env, round: nat, have: nat, max: nat): nat
    decreases max - have
  {
    if have >= max || env.creates(round, have + 1) != 0 then have else Created(env, round, have + 1, max)
  }

  // What a round of nvme_setup_io_queues asked for, how many queues that made it want
  // to bring up, and how many came up.
  datatype Round = Round(asked: nat, maxQid: nat, up: nat)

  // After a round in which some but not all queues came up, the next asks for that many.
  ghost predicate Chain(history: seq<Round>) {
    forall k | 0 <= k < |history| - 1 :: 0 < history[k].up < history[k].maxQid && history[k + 1].asked == history[k].up
  }

  lemma ChainEmpty()
    ensures Chain([])
  {
  }

  lemma ChainNext(history: seq<Round>, r: Round)
    requires Chain(history)
    requires history != [] ==>
      var last := history[|history| - 1]; 0 < last.up < last.maxQid && r.asked == last.up
    ensures Chain(history + [r])
  {
  }

  // The most queues up to granted that have room for their doorbells.
  ghost predicate MostThatFit(env: Env, n: nat, granted: nat) {
    n <= granted && env.barFits(n) && forall m | n < m <= granted :: !env.barFits(m)
  }

  class NvmeDev {
    const writeQueues: nat
    const pollQueues: nat
    const singleVector: bool
    var ioDefault: nat
    var ioRead: nat
    var ioPoll: nat
    var numVecs: nat
    var maxQid: nat
    // I/O queues that have memory, and those that are up: number 1 first.
    var withMemory: nat
    var online: seq<IoQueue>

    constructor (writeQueues: nat, pollQueues: nat, singleVector: bool)
      ensures online == [] && withMemory == 0
    {
      this.writeQueues, this.pollQueues, this.singleVector := writeQueues, pollQueues, singleVector;
      ioDefault, ioRead, ioPoll, numVecs, maxQid, withMemory, online := 0, 0, 0, 0, 0, 0, [];
    }

    // nvme_setup_irqs; vectors is what the PCI core comes up with, never more than
    // asked for, having called nvme_calc_irq_sets for all but the admin queue's.
    method SetupIrqs(nrIoQueues: nat, vectors: int) returns (result: int)
      requires nrIoQueues > 0
      modifies this`ioDefault, this`ioRead, this`ioPoll
      ensures ioPoll == Min(pollQueues, nrIoQueues - 1)
      ensures result > 0 ==> ioDefault >= 1 && ioDefault + ioRead == (if result == 1 then 1 else result - 1)
      ensures result > 0 ==> ioDefault + ioRead + ioPoll <= nrIoQueues
      ensures result > 0 <==> vectors > 0
      // One vector for each queue that is not polled and one for the admin queue.
      ensures var want := if singleVector || pollQueues >= nrIoQueues then 1 else nrIoQueues - pollQueues + 1;
        result == if vectors > want then want else vectors
      // Reads have queues of their own as write queues are asked for, leaving them one.
      ensures result > 0 ==> (ioRead > 0 <==> result > 2 && writeQueues > 0)
      ensures result > 0 && ioRead > 0 ==> ioDefault == Min(writeQueues, result - 2)
      // With all vectors it asks for, none of the queues asked for is left out.
      ensures !singleVector && vectors > nrIoQueues ==> ioDefault + ioRead + ioPoll == nrIoQueues
    {
      var thisPQueues := pollQueues;
      var irqQueues := 0;
      if thisPQueues >= nrIoQueues {
        thisPQueues := nrIoQueues - 1;
        irqQueues := 1;
      } else {
        irqQueues := nrIoQueues - thisPQueues + 1;
      }
      ioPoll := thisPQueues;
      ioDefault, ioRead := 1, 0;
      if singleVector {
        irqQueues := 1;
      }
      result := if vectors > irqQueues then irqQueues else vectors;
      if result > 0 {
        SharesOut(result - 1, writeQueues);
        var s := CalcIrqSets(result - 1, writeQueues);
        ioDefault, ioRead := s.defaults, s.forReads;
      }
    }

    // The queues up so far are of the right kinds: the interrupt-driven ones first,
    // each with a vector the device has, and unless it has only one, its own.
    ghost predicate KindsOk(rw: nat)
      reads this`online, this`numVecs
    {
      forall i | 0 <= i < |online| ::
        && (online[i].polled <==> i + 1 > rw)
        && (!online[i].polled ==> online[i].vector < numVecs && online[i].vector == if numVecs == 1 then 0 else i + 1)
    }

    ghost predicate AllComeUp(round: nat, env: Env)
      reads this`maxQid
    {
      forall i: nat | i <= maxQid :: env.allocates(i) && env.creates(round, i) == 0
    }

    // nvme_create_io_queues
    method CreateIoQueues(round: nat, env: Env) returns (ret: int)
      requires online == [] && maxQid > 0 && numVecs > 0
      requires maxQid == ioDefault + ioRead + ioPoll && ioDefault + ioRead == if numVecs == 1 then 1 else numVecs - 1
      modifies this`withMemory, this`online
      ensures withMemory == Allocated(env, old(withMemory), maxQid)
      ensures |online| == Created(env, round, 0, Min(maxQid, withMemory))
      // A queue that could not be created is an error unless the controller refused it.
      ensures var max := Min(maxQid, withMemory);
        if max == 0 then ret < 0
        else if |online| == max then ret == 0
        else ret == if env.creates(round, |online| + 1) < 0 then env.creates(round, |online| + 1) else 0
      ensures |online| <= maxQid && |online| <= withMemory
      ensures |online| == maxQid ==> KindsOk(ioDefault + ioRead)
      ensures AllComeUp(round, env) ==> ret == 0 && |online| == maxQid
    {
      ret := 0;
      var i := withMemory + 1;
      while i <= maxQid
        invariant i == withMemory + 1 && online == [] && ret == 0
        invariant Allocated(env, withMemory, maxQid) == Allocated(env, old(withMemory), maxQid)
      {
        if !env.allocates(i) {
          ret := -1;
          break;
        }
        withMemory := withMemory + 1;
        i := i + 1;
      }
      var max := Min(maxQid, withMemory);
      var rwQueues := 0;
      if max != 1 && ioPoll > 0 {
        rwQueues := ioDefault + ioRead;
      } else {
        rwQueues := max;
      }
      i := 1;
      while i <= max
        invariant i == |online| + 1 && |online| <= max <= withMemory == Allocated(env, old(withMemory), maxQid)
        invariant ret == if i == 1 && withMemory < maxQid then -1 else 0
        invariant Created(env, round, |online|, max) == Created(env, round, 0, max)
        invariant KindsOk(rwQueues)
        invariant AllComeUp(round, env) ==> ret == 0 && max == maxQid
      {
        var polled := i > rwQueues;
        ret := env.creates(round, i);
        if ret != 0 {
          break;
        }
        online := online + [IoQueue(polled, if polled || numVecs == 1 then 0 else i)];
        i := i + 1;
      }
      ret := if ret >= 0 then 0 else ret;
    }

    ghost predicate NothingFails(granted: nat, env: Env) {
      && env.barFits(granted) && env.vectors(0) > granted && env.adminIrq(0) == 0
      && forall i: nat | i <= granted :: env.allocates(i) && env.creates(0, i) == 0
    }

    // nvme_setup_io_queues once the controller has said how many queues it grants.
    method SetupIoQueues(granted: nat, env: Env) returns (result: int, ghost rounds: nat, ghost history: seq<Round>)
      requires online == []
      modifies this
      ensures result == 0 && online != [] ==>
        && |online| == maxQid == ioDefault + ioRead + ioPoll <= granted
        && ioDefault >= 1 && KindsOk(ioDefault + ioRead)
      // If nothing fails, all queues granted are used in one round.
      ensures granted > 0 && !singleVector && NothingFails(granted, env) ==> result == 0 && |online| == granted && rounds == 1
      // Without the admin queue's interrupt no I/O queue comes up.
      ensures granted > 0 && env.barFits(granted) && env.vectors(0) > 0 && env.adminIrq(0) != 0 ==>
        result == env.adminIrq(0) && online == [] && rounds == 1
      ensures |history| == rounds <= granted && Chain(history)
      ensures rounds > 0 ==> MostThatFit(env, history[0].asked, granted)
      ensures rounds == 0 && granted > 0 ==> result < 0 && forall n | 0 < n <= granted :: !env.barFits(n)
      ensures rounds > 0 ==> history[rounds - 1].up == |online| && (result == 0 ==> online == [] || |online| == maxQid)
    {
      hide Allocated, Created, Chain, NvmeDev.KindsOk;
      rounds, history := 0, [];
      ChainEmpty();
      result := 0;
      if granted == 0 {
        return;
      }
      var nrIoQueues := granted;
      while !env.barFits(nrIoQueues)
        invariant 0 < nrIoQueues <= granted
        invariant forall n | nrIoQueues < n <= granted :: !env.barFits(n)
        decreases nrIoQueues
      {
        nrIoQueues := nrIoQueues - 1;
        if nrIoQueues == 0 {
          assert forall n | 0 < n <= granted :: !env.barFits(n);
          result := -1;
          return;
        }
      }
      ghost var first := nrIoQueues;
      var round := 0;
      while true
        invariant 0 < nrIoQueues && online == []
        invariant rounds == round == |history| && rounds + nrIoQueues <= granted
        invariant nrIoQueues == if round == 0 then first else history[round - 1].up
        invariant round > 0 ==> history[0].asked == first && 0 < history[round - 1].up < history[round - 1].maxQid
        invariant Chain(history)
        invariant env.barFits(granted) && round == 0 ==> nrIoQueues == granted
        invariant round > 0 ==> env.adminIrq(0) == 0 && env.vectors(0) > 0
        invariant !singleVector && NothingFails(granted, env) ==> round == 0
        decreases nrIoQueues
      {
        rounds := rounds + 1;
        ChainNext(history, Round(nrIoQueues, 0, 0));
        result := SetupIrqs(nrIoQueues, env.vectors(round));
        if result <= 0 {
          history := history + [Round(nrIoQueues, 0, 0)];
          result := -1;
          return;
        }
        numVecs := result;
        result := if result - 1 > 1 then result - 1 else 1;
        maxQid := result + ioPoll;
        result := env.adminIrq(round);
        if result != 0 {
          ChainNext(history, Round(nrIoQueues, maxQid, 0));
          history := history + [Round(nrIoQueues, maxQid, 0)];
          return;
        }
        result := CreateIoQueues(round, env);
        ChainNext(history, Round(nrIoQueues, maxQid, |online|));
        history := history + [Round(nrIoQueues, maxQid, |online|)];
        if result != 0 || online == [] {
          return;
        }
        if |online| < maxQid {
          nrIoQueues := |online|;
          online := [];
          round := round + 1;
        } else {
          return;
        }
      }
    }
  }

  // ---- The queue map ----

  // nvme_pci_map_queues: where each kind's queues begin, counted from 0, and how many.
  datatype QueueMap = QueueMap(offset: nat, count: nat)

  function MapQueues(defaults: nat, forReads: nat, polls: nat): (m: seq<QueueMap>) {
    [QueueMap(0, defaults),
     QueueMap(if forReads == 0 then 0 else defaults, forReads),
     QueueMap(if polls == 0 then 0 else defaults + forReads, polls)]
  }

  predicate Maps(m: QueueMap, q: nat) {
    m.offset <= q < m.offset + m.count
  }

  // Every queue belongs to just one kind: default queues first, then those for reads,
  // then the polled ones.
  lemma MapMeaning(defaults: nat, forReads: nat, polls: nat, q: nat)
    requires q < defaults + forReads + polls
    ensures var m := MapQueues(defaults, forReads, polls);
      && (Maps(m[0], q) <==> q < defaults) && (Maps(m[1], q) <==> defaults <= q < defaults + forReads)
      && (Maps(m[2], q) <==> q + 1 > defaults + forReads)
      && (exists k :: 0 <= k < 3 && Maps(m[k], q) && forall l | 0 <= l < 3 && l != k :: !Maps(m[l], q))
  {
    var m := MapQueues(defaults, forReads, polls);
    var k := if q < defaults then 0 else if q < defaults + forReads then 1 else 2;
    assert Maps(m[k], q);
  }
}
