/**
 * PutStream: a received stream is copied to a temporary file, which is then
 * moved over the destination. Every failure the file system, the stream or the
 * context can produce is an input, so a contract speaks about all runs.
 */
module BlobPut {
  import opened Common
  import opened BlobStream

  /** How copying the temporary file over the destination goes, in steps of `step` bytes. */
  datatype CopyFile =
    | SourceUnreadable
    | DestNotCreated
    | Copies(step: nat, failsAt: Option<nat>, syncFails: bool, removeFails: bool)

  /** How fileutil.Move goes: a rename, or a copy when the files are on different devices. */
  datatype Move = Renamed | RenameFails | CrossDevice(copy: CopyFile)

  datatype Env = Env(
    named: bool,            // the stream's metadata holds a non-empty file name
    pathOk: bool,           // it stays within the I/O directory
    cancelledAtOpen: bool,
    mkdirFails: bool,
    createFails: bool,
    room: Option<nat>,      // bytes the temporary file can take before writes fail
    cancelledAtClose: bool,
    syncFails: bool,
    closeFails: bool,
    removeFails: bool,
    move: Move)

  predicate Fits(room: Option<nat>, n: nat) {
    room.None? || n <= room.value
  }

  class Disk {
    var dest: Option<Bytes>
    var tmp: Option<Bytes>
    ghost var seen: seq<Option<Bytes>>   // every content the destination took on, oldest first

    method SetDest(v: Option<Bytes>)
      modifies this
      ensures dest == v && seen == old(seen) + [v] && tmp == old(tmp)
    {
      dest := v;
      seen := seen + [v];
    }

    /** localWriter.Write */
    method Write(p: Bytes, room: Option<nat>) returns (ok: bool)
      requires tmp.Some? && Fits(room, |tmp.value|)
      modifies this
      ensures dest == old(dest) && seen == old(seen)
      ensures ok <==> Fits(room, |old(tmp).value| + |p|)
      ensures tmp.Some? && Fits(room, |tmp.value|)
      ensures ok ==> tmp.value == old(tmp).value + p
    {
      if Fits(room, |tmp.value| + |p|) {
        tmp := Some(tmp.value + p);
        return true;
      }
      tmp := Some(tmp.value + p[..room.value - |tmp.value|]);
      return false;
    }

    /** fileutil.CopyFile from the temporary file: the destination is truncated, then grows. */
    method Copy(c: CopyFile) returns (ok: bool)
      requires tmp.Some? && ProperStep(CrossDevice(c))
      modifies this
      ensures tmp == old(tmp)
      ensures seen == old(seen) + Contents(CrossDevice(c), tmp.value) && dest == Last(old(dest), seen[|old(seen)|..])
      ensures ok <==> c.Copies? && !c.syncFails && (c.failsAt.None? || |tmp.value| <= c.failsAt.value)
      ensures c.Copies? && (c.failsAt.None? || |tmp.value| <= c.failsAt.value) ==> dest == tmp
      ensures c.Copies? && c.failsAt.Some? && c.failsAt.value < |tmp.value| ==>
                dest == Some(tmp.value[..c.failsAt.value])
    {
      if !c.Copies? {
        return false;
      }
      SetDest(Some([]));
      var limit := CopyLimit(c, |tmp.value|);
      ghost var all := seen + Growth(tmp.value, 0, limit, c.step);
      var n := 0;
      while n < limit
        invariant 0 <= n <= limit && tmp == old(tmp) && dest == Some(tmp.value[..n])
        invariant |seen| > |old(seen)| && seen[|seen| - 1] == dest
        invariant seen + Growth(tmp.value, n, limit, c.step) == all
        decreases limit - n
      {
        n := if n + c.step < limit then n + c.step else limit;
        SetDest(Some(tmp.value[..n]));
      }
      assert limit == |tmp.value| ==> tmp.value[..n] == tmp.value;
      assert all == old(seen) + ([Some([])] + Growth(tmp.value, 0, limit, c.step));
      return limit == |tmp.value| && !c.syncFails;
    }

    /** fileutil.Move of the temporary file over the destination. */
    method MoveOver(m: Move) returns (ok: bool)
      requires tmp.Some? && ProperStep(m)
      modifies this
      ensures seen == old(seen) + Contents(m, old(tmp).value) && dest == Last(old(dest), seen[|old(seen)|..])
      ensures ok <==> MoveSucceeds(m, |old(tmp).value|)
      ensures if ok then dest == old(tmp) && tmp.None? else tmp == old(tmp)
    {
      match m
      case Renamed =>
        SetDest(tmp);
        tmp := None;
        return true;
      case RenameFails =>
        return false;
      case CrossDevice(c) =>
        ok := Copy(c);
        if ok && !c.removeFails {
          tmp := None;
        }
        return ok && !c.removeFails;
    }

    /** localWriter.Close: a cancelled context discards the temporary file, otherwise it is published. */
    method Close(env: Env, cancelled: bool) returns (ok: bool)
      requires tmp.Some? && ProperStep(env.move)
      modifies this
      ensures var moves := !cancelled && !env.syncFails && !env.closeFails;
              && seen == old(seen) + (if moves then Contents(env.move, old(tmp).value) else [])
              && dest == Last(old(dest), seen[|old(seen)|..])
              && (ok <==> moves && MoveSucceeds(env.move, |old(tmp).value|))
      ensures ok ==> dest == old(tmp)
      ensures tmp == if ok || (cancelled && !env.removeFails) then None else old(tmp)
    {
      if cancelled {
        if !env.removeFails {
          tmp := None;
        }
        return false;
      }
      if env.syncFails || env.closeFails {
        return false;
      }
      ok := MoveOver(env.move);
    }
  }

  predicate ProperStep(m: Move) {
    m.CrossDevice? && m.copy.Copies? ==> m.copy.step > 0
  }

  /** How many of `size` bytes a copy writes before it ends or fails. */
  function CopyLimit(c: CopyFile, size: nat): (n: nat)
    requires c.Copies?
    ensures n <= size
  {
    if c.failsAt.Some? && c.failsAt.value < size then c.failsAt.value else size
  }

  predicate MoveSucceeds(m: Move, size: nat) {
    match m
    case Renamed => true
    case RenameFails => false
    case CrossDevice(c) => c.Copies? && !c.syncFails && !c.removeFails && CopyLimit(c, size) == size
  }

  /** The contents the destination takes on while it grows from n to `limit` bytes. */
  function Growth(data: Bytes, n: nat, limit: nat, step: nat): seq<Option<Bytes>>
    requires n <= limit <= |data| && step > 0
    decreases limit - n
  {
    if n == limit then []
    else
      var m := if n + step < limit then n + step else limit;
      [Some(data[..m])] + Growth(data, m, limit, step)
  }

  /** The contents the destination takes on when the file holding `data` is moved over it. */
  function Contents(m: Move, data: Bytes): seq<Option<Bytes>>
    requires ProperStep(m)
  {
    match m
    case Renamed => [Some(data)]
    case RenameFails => []
    case CrossDevice(c) =>
      if c.Copies? then [Some([])] + Growth(data, 0, CopyLimit(c, |data|), c.step) else []
  }

  function Last(before: Option<Bytes>, contents: seq<Option<Bytes>>): Option<Bytes> {
    if contents == [] then before else contents[|contents| - 1]
  }

  /** Every content is one of the two. */
  ghost predicate OnlySaw(contents: seq<Option<Bytes>>, a: Option<Bytes>, b: Option<Bytes>) {
    forall x :: x in contents ==> x == a || x == b
  }

  /** The copy writes nothing after truncating the destination, or everything at once. */
  predicate OneStep(c: CopyFile, size: nat)
    requires c.Copies?
  {
    size == 0 || CopyLimit(c, size) == 0 || (CopyLimit(c, size) == size && size <= c.step)
  }

  /**
   * A move replaces the destination atomically if and only if it does not copy,
   * or there is nothing to copy, or the destination is empty before and the copy
   * does not stop in between.
   */
  lemma AtomicIff(m: Move, before: Option<Bytes>, data: Bytes)
    requires ProperStep(m)
    ensures OnlySaw(Contents(m, data), before, Some(data)) <==>
            || !(m.CrossDevice? && m.copy.Copies?)
            || data == []
            || (before == Some([]) && OneStep(m.copy, |data|))
  {
    if m.CrossDevice? && m.copy.Copies? && data != [] {
      var c, limit := m.copy, CopyLimit(m.copy, |data|);
      var contents := Contents(m, data);
      assert contents[0] == Some([]) && contents[0] in contents;
      if limit > 0 {
        var first := if c.step < limit then c.step else limit;
        assert contents[1] == Some(data[..first]) && contents[1] in contents;
        assert first == |data| <==> data[..first] == data;
        assert first == limit ==> Growth(data, first, limit, c.step) == [];
        assert first == limit ==> contents == [Some([]), Some(data[..first])];
      } else {
        assert contents == [Some([])];
      }
    }
  }

  /** The fallback that writes the destination in place. */
  predicate CopyStarts(env: Env) {
    env.move.CrossDevice? && env.move.copy.Copies?
  }

  /** io.Copy from the stream to the temporary file, through a buffer of bufLen bytes. */
  method CopyToTemp(disk: Disk, r: Reader, room: Option<nat>, bufLen: nat) returns (ok: bool)
    requires bufLen > 0 && r.Valid() && !r.eofReached && r.lastPayload.None?
    requires disk.tmp == Some([])
    modifies disk, r
    ensures disk.dest == old(disk.dest) && disk.seen == old(disk.seen) && disk.tmp.Some?
    ensures ok <==> AllChunks(old(r.incoming)) && Fits(room, |Payloads(old(r.incoming))|)
    ensures ok ==> disk.tmp == Some(Payloads(old(r.incoming)))
  {
    ghost var items, full := r.incoming, r.Ahead();
    assert full == Payloads(items);
    var buf := new byte[bufLen];
    while true
      invariant r.Valid() && fresh(buf)
      invariant disk.dest == old(disk.dest) && disk.seen == old(disk.seen)
      invariant disk.tmp.Some? && disk.tmp.value + r.Ahead() == full
      invariant Fits(room, |disk.tmp.value|)
      invariant AllChunks(items) <==> AllChunks(r.incoming)
      decreases |r.Ahead()|, !r.eofReached
    {
      ghost var before, ahead, done := r.incoming, r.Ahead(), disk.tmp.value;
      var n, err := r.Read(buf);
      var got := buf[..n];
      Reassociate(done, got, r.Ahead(), ahead);
      ChunksTaken(before, r.incoming, err);
      if n > 0 {
        var wrote := disk.Write(got, room);
        if !wrote {
          return false;
        }
      }
      if err.Some? {
        assert err == Some(EOF) ==> r.Ahead() == [] && disk.tmp.value == full;
        return err.value == EOF;
      }
    }
  }

  /** The run gets past opening, copying, the context check, sync and close. */
  predicate ReachesMove(env: Env, items: seq<Item>) {
    && Opens(env)
    && AllChunks(items) && Fits(env.room, |Payloads(items)|)
    && !env.cancelledAtClose && !env.syncFails && !env.closeFails
  }

  /** Nothing up to the move fails or is cancelled, and the whole stream arrives and fits. */
  predicate NothingFails(env: Env, items: seq<Item>) {
    && env.named && env.pathOk && !env.cancelledAtOpen && !env.mkdirFails && !env.createFails
    && (forall i :: 0 <= i < |items| ==> items[i].Chunk?)
    && (env.room.Some? ==> |Payloads(items)| <= env.room.value)
    && !env.cancelledAtClose && !env.syncFails && !env.closeFails
  }

  predicate Opens(env: Env) {
    env.named && env.pathOk && !env.cancelledAtOpen && !env.mkdirFails && !env.createFails
  }

  /**
   * PutStream. The destination is touched only after the context check, sync and
   * close passed. It only ever held its old content or the whole stream, if and
   * only if the move is not reached or replaces it atomically. Success means it
   * holds the whole stream and the temporary file is gone.
   */
  method PutStream(disk: Disk, env: Env, items: seq<Item>, bufLen: nat) returns (ok: bool)
    requires bufLen > 0 && disk.tmp.None? && ProperStep(env.move)
    modifies disk
    ensures disk.seen == old(disk.seen) + (if ReachesMove(env, items) then Contents(env.move, Payloads(items)) else [])
    ensures disk.dest == Last(old(disk.dest), disk.seen[|old(disk.seen)|..])
    ensures ok <==> ReachesMove(env, items) && MoveSucceeds(env.move, |Payloads(items)|)
    ensures ok ==> disk.dest == Some(Payloads(items)) && disk.tmp.None?
    ensures !ok && ReachesMove(env, items) ==> disk.tmp == Some(Payloads(items))
    ensures !Opens(env) ==> disk.tmp.None?
    ensures Opens(env) && (!AllChunks(items) || !Fits(env.room, |Payloads(items)|) || env.cancelledAtClose) ==>
              (disk.tmp.Some? <==> env.removeFails)
    ensures ok ==> NothingFails(env, items) && !env.move.RenameFails?
    ensures NothingFails(env, items) && env.move.Renamed? ==> ok
    ensures NothingFails(env.(syncFails := false, closeFails := false), items) && !NothingFails(env, items) ==>
              disk.tmp == Some(Payloads(items))
    ensures OnlySaw(disk.seen[|old(disk.seen)|..], old(disk.dest), Some(Payloads(items))) <==>
            || !(ReachesMove(env, items) && CopyStarts(env))
            || Payloads(items) == []
            || (old(disk.dest) == Some([]) && OneStep(env.move.copy, |Payloads(items)|))
  {
    AtomicIff(env.move, disk.dest, Payloads(items));
    if !Opens(env) {
      return false;
    }
    disk.tmp := Some([]);
    var r := new Reader(items);
    var copied := CopyToTemp(disk, r, env.room, bufLen);
    if !copied {
      var _ := disk.Close(env, true);
      return false;
    }
    ok := disk.Close(env, env.cancelledAtClose);
    assert ReachesMove(env, items) ==> disk.seen[|old(disk.seen)|..] == Contents(env.move, Payloads(items));
  }

  lemma HalfCopy(data: Bytes, copy: CopyFile)
    requires data == [1, 2] && copy == Copies(1, Some(1), false, false)
    ensures Payloads([Chunk(data)]) == data && Contents(CrossDevice(copy), data) == [Some([]), Some([1])]
  {
    assert [Chunk(data)][1..] == [];
    assert data[..1] == [1] && Growth(data, 1, 1, 1) == [];
  }

  /** A copy across devices that fails half way leaves a destination that is neither old nor new. */
  method CopyLeavesPart() returns (disk: Disk, ok: bool)
    ensures fresh(disk) && !ok && disk.dest == Some([1]) && disk.seen == [Some([]), Some([1])]
  {
    disk := new Disk;
    disk.dest, disk.tmp, disk.seen := Some([9, 9]), None, [];
    var copy := Copies(1, Some(1), false, false);
    var env := Env(true, true, false, false, false, None, false, false, false, false, CrossDevice(copy));
    var data: Bytes := [1, 2];
    var items := [Chunk(data)];
    HalfCopy(data, copy);
    ok := PutStream(disk, env, items, 4);
  }
}
