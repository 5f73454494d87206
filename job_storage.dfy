/**
 * `ak__job_storage`: the job pool of the job system, a slot map of its own
 * whose handles are job IDs `AK__Job_Make_ID(Job) = Index | Generation << 32`.
 * Only the index/generation bookkeeping is modelled; the job's callback,
 * data and dependency counters are not.
 */
module JobStorage {
  import opened Bits
  import opened Packing
  import opened StackIndex
  import opened Wrappers

  /** The `Index` and `Generation` fields of `ak__job`. */
  datatype Job = Job(index: u32, generation: u32)

  /** `AK__Job_Make_ID`: the job's ID names its index and current generation. */
  function MakeId(job: Job): (id: u64)
    ensures Slot64Index(id) == job.index && Slot64Key(id) == job.generation
  {
    Slot64(job.index, job.generation)
  }

  class Storage {
    const freeJobIndices: StackIndex32
    const jobs: array<Job>

    ghost predicate Valid()
      reads this, freeJobIndices, freeJobIndices.nextIndices, jobs
    {
      && freeJobIndices.Valid()
      && freeJobIndices.capacity as int <= jobs.Length
      && forall i :: 0 <= i < freeJobIndices.capacity as int ==>
           jobs[i].index as int == i && jobs[i].generation != 0
    }

    /** `AK_Job__Storage_Capacity`. */
    function Capacity(): u32
      reads this, freeJobIndices
    {
      freeJobIndices.capacity
    }

    /** The free job indices, next to be handed out first. */
    ghost function FreeList(): seq<u32>
      reads this, freeJobIndices
    {
      freeJobIndices.Contents
    }

    /** `AK_Job__Storage_Init`: job `i` gets index `i` and generation 1; all are free. */
    constructor Init(freeIndicesPtr: array<u32>, jobsPtr: array<Job>, jobCount: u32)
      requires jobCount as int <= freeIndicesPtr.Length
      requires jobCount as int <= jobsPtr.Length
      modifies freeIndicesPtr, jobsPtr
      ensures Valid()
      ensures fresh(freeJobIndices) && freeJobIndices.nextIndices == freeIndicesPtr && jobs == jobsPtr
      ensures Capacity() == jobCount
      ensures forall i :: 0 <= i < jobCount as int ==> jobs[i] == Job(i as u32, 1)
      ensures |FreeList()| == jobCount as int
      ensures forall k :: 0 <= k < |FreeList()| ==> FreeList()[k] as int == jobCount as int - 1 - k
    {
      freeJobIndices := new StackIndex32.InitRaw(freeIndicesPtr, jobCount);
      jobs := jobsPtr;
      new;
      var i: u32 := 0;
      while i < jobCount
        invariant 0 <= i <= jobCount
        invariant freeJobIndices.Valid() && freeJobIndices.nextIndices == freeIndicesPtr
        invariant freeJobIndices.capacity == jobCount
        invariant |freeJobIndices.Contents| == i as int
        invariant forall k :: 0 <= k < i as int ==> freeJobIndices.Contents[k] as int == i as int - 1 - k
        invariant forall j :: 0 <= j < i as int ==> jobs[j] == Job(j as u32, 1)
      {
        freeJobIndices.PushSync(i);
        jobs[i] := Job(i, 1);
        i := i + 1;
      }
    }

    /**
     * `AK_Job__Storage_Get`: the job an ID names, when the ID's generation
     * is the job's current one; NULL (`None`) otherwise.
     */
    function Get(id: u64): (r: Option<u32>)
      reads this, freeJobIndices, jobs
      requires Slot64Index(id) < Capacity() && Capacity() as int <= jobs.Length
      ensures r.Some? <==> jobs[Slot64Index(id)].generation == Slot64Key(id)
      ensures r.Some? ==> r.value == Slot64Index(id)
    {
      var index := Slot64Index(id);
      var generation := Slot64Key(id);
      if jobs[index].generation == generation then Some(index) else None
    }

    /** A job's current ID resolves to that job. */
    lemma GetMakeId(index: u32)
      requires Valid() && index < Capacity()
      ensures Get(MakeId(jobs[index])) == Some(index)
    {
    }

    /** `AK_Job__Storage_Alloc`: the top free job, or NULL (`None`) when none is free. */
    method Alloc() returns (job: Option<u32>)
      requires Valid()
      modifies freeJobIndices
      ensures Valid()
      ensures old(FreeList()) == [] ==> job == None && FreeList() == []
      ensures old(FreeList()) != [] ==> job == Some(old(FreeList())[0]) && FreeList() == old(FreeList())[1..]
      ensures job.Some? ==> Get(MakeId(jobs[job.value])) == job
    {
      var freeIndex := freeJobIndices.Pop();
      if freeIndex == INVALID {
        return None;
      }
      assert jobs[freeIndex].index == freeIndex;
      job := Some(freeIndex);
    }

    /**
     * `AK_Job__Storage_Free`.  Unlike the slot map's `Free_Slot` there is no
     * compare-and-swap: the generation after the ID's, never 0, is stored
     * unconditionally and the index is pushed back, so the ID stops
     * resolving.  The job must be allocated (not already free).
     */
    method Free(id: u64)
      requires Valid()
      requires Slot64Index(id) < Capacity()
      requires Slot64Index(id) !in FreeList()
      modifies freeJobIndices, freeJobIndices.nextIndices, jobs
      ensures Valid()
      ensures jobs[..] == old(jobs[..])[Slot64Index(id) := Job(Slot64Index(id), NextGeneration(Slot64Key(id)))]
      ensures FreeList() == [Slot64Index(id)] + old(FreeList())
      ensures Get(id) == None
    {
      var index := Slot64Index(id);
      assert jobs[index].index == index;
      var generation := Slot64Key(id);
      var nextGeneration := NextGeneration(generation);
      jobs[index] := jobs[index].(generation := nextGeneration);
      freeJobIndices.Push(index);
    }
  }
}
