/** The local-storage driver as the class it is (src/connections/local-storage.connection.ts). */
module LocalStorageDriver {
  import opened JsStrings
  import opened Options
  import opened Jobs
  import opened TubeStore
  import opened StorageKeys
  import MS = MemoryStore

  /** The browser's storage of one origin: decoded values by key, enumerated in an order of the browser's choosing. */
  class BrowserStorage {
    var items: map<JsString, Blob>

    constructor ()
      ensures items == map[]
    {
      items := map[];
    }

    /** `key(0)`, `key(1)`, ...: each key once, in some order. */
    method Keys() returns (keys: seq<JsString>)
      ensures forall key :: key in keys <==> key in items
      ensures forall i, j :: 0 <= i < j < |keys| ==> keys[i] != keys[j]
    {
      keys := [];
      var left := items.Keys;
      while left != {}
        invariant left <= items.Keys
        invariant forall key :: key in keys <==> key in items && key !in left
        invariant forall i, j :: 0 <= i < j < |keys| ==> keys[i] != keys[j]
        decreases left
      {
        var key :| key in left;
        keys, left := keys + [key], left - {key};
      }
    }
  }

  /** No key outside those that start with `start` has changed. */
  predicate OnlyChanged(start: JsString, before: map<JsString, Blob>, after: map<JsString, Blob>) {
    && (forall key :: key in before && !StartsWith(key, start) ==> key in after && after[key] == before[key])
    && (forall key :: key in after && !StartsWith(key, start) ==> key in before)
  }

  function BlobAt(items: map<JsString, Blob>, key: JsString): Blob {
    if key in items then items[key] else EMPTY_BLOB
  }

  /** What a connection does to storage changes no blob of a connection that it does not see. */
  lemma OtherConnectionsUnchanged(prefix: JsString, name: JsString, other: JsString, queue: JsString,
                                  before: map<JsString, Blob>, after: map<JsString, Blob>)
    requires OnlyChanged(OwnPrefix(prefix, name), before, after)
    requires !Sees(prefix, name, other)
    ensures BlobAt(after, KeyFor(prefix, other, queue)) == BlobAt(before, KeyFor(prefix, other, queue))
  {
  }

  /** The tubes in storage are the flat map restricted to each. */
  ghost predicate Shows(prefix: JsString, name: JsString, items: map<JsString, Blob>, flat: MS.Store) {
    && MS.Valid(flat)
    && forall queue :: BlobAt(items, KeyFor(prefix, name, queue)) == TubeOf(flat, queue)
  }

  /** Storage without a key of the connection shows the empty job map. */
  lemma NothingStored(prefix: JsString, name: JsString, items: map<JsString, Blob>)
    requires forall key :: key in items ==> !StartsWith(key, OwnPrefix(prefix, name))
    ensures Shows(prefix, name, items, MS.EMPTY)
  {
    forall queue ensures BlobAt(items, KeyFor(prefix, name, queue)) == TubeOf(MS.EMPTY, queue) {
      SlicingUndoesPrefixing(prefix, name, queue);
    }
  }

  /** Rewriting one tube as the flat map changes on it keeps storage and map in step. */
  lemma WriteShows(prefix: JsString, name: JsString, items: map<JsString, Blob>, flat: MS.Store,
                   queue: JsString, blob: Blob, after: MS.Store)
    requires Shows(prefix, name, items, flat) && MS.Valid(after)
    requires forall q :: TubeOf(after, q) == if q == queue then blob else TubeOf(flat, q)
    ensures Shows(prefix, name, items[KeyFor(prefix, name, queue) := blob], after)
    ensures OnlyChanged(OwnPrefix(prefix, name), items, items[KeyFor(prefix, name, queue) := blob])
  {
    SlicingUndoesPrefixing(prefix, name, queue);
    var written := items[KeyFor(prefix, name, queue) := blob];
    forall q ensures BlobAt(written, KeyFor(prefix, name, q)) == TubeOf(after, q) {
      SlicingUndoesPrefixing(prefix, name, q);
      assert BlobAt(items, KeyFor(prefix, name, q)) == TubeOf(flat, q);
    }
  }

  lemma EraseShows(prefix: JsString, name: JsString, items: map<JsString, Blob>, flat: MS.Store, queue: JsString, after: MS.Store)
    requires Shows(prefix, name, items, flat) && MS.Valid(after)
    requires forall q :: TubeOf(after, q) == if q == queue then EMPTY_BLOB else TubeOf(flat, q)
    ensures Shows(prefix, name, items - {KeyFor(prefix, name, queue)}, after)
    ensures OnlyChanged(OwnPrefix(prefix, name), items, items - {KeyFor(prefix, name, queue)})
  {
    SlicingUndoesPrefixing(prefix, name, queue);
    var erased := items - {KeyFor(prefix, name, queue)};
    forall q ensures BlobAt(erased, KeyFor(prefix, name, q)) == TubeOf(after, q) {
      SlicingUndoesPrefixing(prefix, name, q);
      assert BlobAt(items, KeyFor(prefix, name, q)) == TubeOf(flat, q);
    }
  }

  /** A stored job is found in one of the listed tubes. */
  lemma ListedTubeOf(prefix: JsString, name: JsString, items: map<JsString, Blob>, flat: MS.Store, queues: seq<JsString>, id: JobId)
    returns (k: nat)
    requires Shows(prefix, name, items, flat) && id in flat.jobs
    requires forall queue :: queue in queues <==> KeyFor(prefix, name, queue) in items
    ensures k < |queues| && IndexOf(BlobAt(items, KeyFor(prefix, name, queues[k])).jobs, id).Some?
  {
    var queue := flat.jobs[id].spec.queue;
    RemoveOnTubes(flat, id, queue);
    assert BlobAt(items, KeyFor(prefix, name, queue)) == TubeOf(flat, queue);
    assert queue in queues;
    k :| 0 <= k < |queues| && queues[k] == queue;
  }

  class LocalStorageConnection {
    const prefix: JsString
    const name: JsString
    const storage: BrowserStorage
    ghost var flat: MS.Store  // the job map that the tubes in storage amount to

    ghost predicate Valid()
      reads this, storage
    {
      Shows(prefix, name, storage.items, flat)
    }

    function Own(): JsString {
      OwnPrefix(prefix, name)
    }

    /** A connection over what storage holds, which survives reloads: the tubes of some job map. */
    constructor (prefix: JsString, name: JsString, storage: BrowserStorage, ghost stored: MS.Store)
      requires Shows(prefix, name, storage.items, stored)
      ensures this.prefix == prefix && this.name == name && this.storage == storage
      ensures Valid() && flat == stored
    {
      this.prefix, this.name, this.storage := prefix, name, storage;
      flat := stored;
    }

    method Read(queue: JsString) returns (blob: Blob)
      ensures blob == BlobAt(storage.items, KeyFor(prefix, name, queue))
    {
      var key := KeyFor(prefix, name, queue);
      if key !in storage.items {
        return EMPTY_BLOB;
      }
      return storage.items[key];
    }

    method Write(queue: JsString, blob: Blob, ghost after: MS.Store)
      requires Valid() && MS.Valid(after)
      requires forall q :: TubeOf(after, q) == if q == queue then blob else TubeOf(flat, q)
      modifies this`flat, storage
      ensures Valid() && OnlyChanged(Own(), old(storage.items), storage.items) && flat == after
    {
      WriteShows(prefix, name, storage.items, flat, queue, blob, after);
      storage.items := storage.items[KeyFor(prefix, name, queue) := blob];
      flat := after;
    }

    /** The tubes found by prefix scan: exactly those that were written. */
    method ListQueues() returns (queues: seq<JsString>)
      ensures forall queue :: queue in queues <==> KeyFor(prefix, name, queue) in storage.items
    {
      queues := [];
      var start := OwnPrefix(prefix, name);
      var keys := storage.Keys();
      for i := 0 to |keys|
        invariant forall queue :: queue in queues ==> KeyFor(prefix, name, queue) in storage.items
        invariant forall k :: 0 <= k < i && StartsWith(keys[k], start) ==> keys[k][|start|..] in queues
      {
        var key := keys[i];
        assert key in keys;
        if StartsWith(key, start) {
          KeyOfSlice(prefix, name, key);
          queues := queues + [key[|start|..]];
        }
      }
      forall queue | KeyFor(prefix, name, queue) in storage.items ensures queue in queues {
        SlicingUndoesPrefixing(prefix, name, queue);
        var key := KeyFor(prefix, name, queue);
        assert key in keys;
        var k :| 0 <= k < |keys| && keys[k] == key;
      }
    }

    method Push(d: Dispatch) returns (id: JobId)
      requires Valid() && d.id !in flat.jobs
      modifies this`flat, storage
      ensures Valid() && OnlyChanged(Own(), old(storage.items), storage.items)
      ensures (flat, id) == PushOnTube(old(flat), NewJob(d))
    {
      var job := NewJob(d);
      id := job.spec.id;
      var blob := Read(job.spec.queue);
      assert blob == TubeOf(flat, job.spec.queue);
      PushOnTubes(flat, job, job.spec.queue);
      if Deduplicated(job) {
        var existing := FindBlocking(blob.jobs, job.spec.uniqueId);
        if existing.Some? {
          return blob.jobs[existing.value].spec.id;
        }
      }
      forall q { PushOnTubes(flat, job, q); }
      Write(job.spec.queue, blob.(jobs := blob.jobs + [job]), PushOnTube(flat, job).0);
    }

    /** `blob.jobs.find(...)` */
    method FindBlocking(js: seq<Job>, uid: Option<JsString>) returns (found: Option<int>)
      ensures found == BlockingIndex(js, uid)
    {
      for i := 0 to |js|
        invariant BlockingIndex(js[..i], uid).None?
      {
        assert js[..i + 1][..i] == js[..i];
        if js[i].spec.uniqueId == uid && js[i].status != Completed && js[i].status != Failed {
          BlockingIsStable(js, i + 1, uid);
          return Some(i);
        }
      }
      assert js[..|js|] == js;
      return None;
    }

    /** The scan of `pop`: the first due job, replaced only by a strictly older one. */
    method FindOldest(js: seq<Job>, now: int) returns (best: Option<int>)
      ensures best == OldestIndex(js, now)
    {
      best := None;
      for i := 0 to |js|
        invariant best == OldestIndex(js[..i], now)
      {
        assert js[..i + 1][..i] == js[..i];
        var job := js[i];
        var isEligible := (job.status == Pending || job.status == Delayed) && job.availableAt <= now;
        if !isEligible { continue; }
        if best.None? || job.spec.createdAt < js[best.value].spec.createdAt {
          best := Some(i);
        }
      }
      assert js[..|js|] == js;
    }

    method Pop(queue: JsString, now: int) returns (chosen: Option<Job>)
      requires Valid()
      modifies this`flat, storage
      ensures Valid() && OnlyChanged(Own(), old(storage.items), storage.items)
      ensures (flat, chosen) == MS.Pop(old(flat), queue, now)
    {
      var blob := Read(queue);
      assert blob == TubeOf(flat, queue);
      PopOnTubes(flat, queue, now, queue);
      if blob.paused {
        return None;
      }
      var best := FindOldest(blob.jobs, now);
      if best.None? {
        return None;
      }
      var reserved := ReservedAt(blob.jobs[best.value], now);
      forall q { PopOnTubes(flat, queue, now, q); }
      Write(queue, blob.(jobs := blob.jobs[best.value := reserved]), MS.Pop(flat, queue, now).0);
      return Some(reserved);
    }

    method Size(queue: JsString) returns (count: nat)
      requires Valid()
      ensures count == MS.Size(flat, queue)
    {
      CountsAgree(flat.order, flat.jobs, queue, MS.IN_FLIGHT);
      var blob := Read(queue);
      assert blob == TubeOf(flat, queue);
      count := CountIn(blob.jobs, MS.IN_FLIGHT);
    }

    method CountByStatus(queue: JsString, status: Status) returns (count: nat)
      requires Valid()
      ensures count == MS.SizeOf(flat, queue, status)
    {
      CountsAgree(flat.order, flat.jobs, queue, {status});
      var blob := Read(queue);
      assert blob == TubeOf(flat, queue);
      count := CountIn(blob.jobs, {status});
    }

    method Remove(id: JobId)
      requires Valid()
      modifies this`flat, storage
      ensures Valid() && OnlyChanged(Own(), old(storage.items), storage.items)
      ensures flat == MS.Remove(old(flat), id)
    {
      var queues := ListQueues();
      for i := 0 to |queues|
        invariant storage.items == old(storage.items) && flat == old(flat)
        invariant forall k :: 0 <= k < i ==> IndexOf(BlobAt(storage.items, KeyFor(prefix, name, queues[k])).jobs, id).None?
      {
        var blob := Read(queues[i]);
        assert blob == TubeOf(flat, queues[i]);
        var next := Without(blob.jobs, id);
        WithoutIsShorterExactlyIfFound(blob.jobs, id);
        if |next| != |blob.jobs| {
          RemoveFromTube(flat, id, queues[i]);
          Write(queues[i], blob.(jobs := next), MS.Remove(flat, id));
          return;
        }
      }
      if id in flat.jobs {
        ghost var k := ListedTubeOf(prefix, name, storage.items, flat, queues, id);
        assert false;
      }
      RemoveOfAbsent(flat, id);
    }

    method Release(id: JobId, delayMs: int, now: int)
      requires Valid()
      modifies this`flat, storage
      ensures Valid() && OnlyChanged(Own(), old(storage.items), storage.items)
      ensures flat == MS.Release(old(flat), id, delayMs, now)
    {
      var queues := ListQueues();
      for i := 0 to |queues|
        invariant storage.items == old(storage.items) && flat == old(flat)
        invariant forall k :: 0 <= k < i ==> IndexOf(BlobAt(storage.items, KeyFor(prefix, name, queues[k])).jobs, id).None?
      {
        var blob := Read(queues[i]);
        var index := IndexOf(blob.jobs, id);
        if index.None? { continue; }
        Rewrite(queues[i], blob, index.value, ReleasedAt(blob.jobs[index.value], delayMs, now));
        return;
      }
      if id in flat.jobs {
        ghost var k := ListedTubeOf(prefix, name, storage.items, flat, queues, id);
        assert false;
      }
    }

    method Fail(id: JobId, reason: Reason, now: int)
      requires Valid()
      modifies this`flat, storage
      ensures Valid() && OnlyChanged(Own(), old(storage.items), storage.items)
      ensures flat == MS.Fail(old(flat), id, reason, now)
    {
      var queues := ListQueues();
      for i := 0 to |queues|
        invariant storage.items == old(storage.items) && flat == old(flat)
        invariant forall k :: 0 <= k < i ==> IndexOf(BlobAt(storage.items, KeyFor(prefix, name, queues[k])).jobs, id).None?
      {
        var blob := Read(queues[i]);
        var index := IndexOf(blob.jobs, id);
        if index.None? { continue; }
        Rewrite(queues[i], blob, index.value, FailedAt(blob.jobs[index.value], reason, now));
        return;
      }
      if id in flat.jobs {
        ghost var k := ListedTubeOf(prefix, name, storage.items, flat, queues, id);
        assert false;
      }
    }

    /** Writes a tube back with one of its jobs changed. */
    method Rewrite(queue: JsString, blob: Blob, index: int, job: Job)
      requires Valid() && blob == BlobAt(storage.items, KeyFor(prefix, name, queue))
      requires 0 <= index < |blob.jobs| && job.spec == blob.jobs[index].spec
      modifies this`flat, storage
      ensures Valid() && OnlyChanged(Own(), old(storage.items), storage.items)
      ensures job.spec.id in old(flat.jobs) && old(flat.jobs)[job.spec.id] == blob.jobs[index]
      ensures flat == old(flat).(jobs := old(flat.jobs)[job.spec.id := job])
    {
      assert blob == TubeOf(flat, queue);
      RewriteOnTubes(flat, queue, index, job);
      Write(queue, blob.(jobs := blob.jobs[index := job]), flat.(jobs := flat.jobs[job.spec.id := job]));
    }

    method Clear(queue: JsString)
      requires Valid()
      modifies this`flat, storage
      ensures Valid() && OnlyChanged(Own(), old(storage.items), storage.items)
      ensures flat == ClearTube(old(flat), queue)
    {
      ClearOnTubes(flat, queue);
      EraseShows(prefix, name, storage.items, flat, queue, ClearTube(flat, queue));
      storage.items := storage.items - {KeyFor(prefix, name, queue)};
      flat := ClearTube(flat, queue);
    }

    method Pause(queue: JsString)
      requires Valid()
      modifies this`flat, storage
      ensures Valid() && OnlyChanged(Own(), old(storage.items), storage.items)
      ensures flat == MS.Pause(old(flat), queue)
    {
      var blob := Read(queue);
      assert blob == TubeOf(flat, queue);
      Write(queue, blob.(paused := true), MS.Pause(flat, queue));
    }

    method Resume(queue: JsString)
      requires Valid()
      modifies this`flat, storage
      ensures Valid() && OnlyChanged(Own(), old(storage.items), storage.items)
      ensures flat == MS.Resume(old(flat), queue)
    {
      var blob := Read(queue);
      assert blob == TubeOf(flat, queue);
      Write(queue, blob.(paused := false), MS.Resume(flat, queue));
    }

    method IsPaused(queue: JsString) returns (r: bool)
      requires Valid()
      ensures r <==> queue in flat.paused
    {
      var blob := Read(queue);
      assert blob == TubeOf(flat, queue);
      r := blob.paused;
    }
  }
}
