/** Capturing stdout or stderr: the stream is redirected into a pipe, drained by Peek and
    End, and restored by End. */
module Io {

  datatype Stream = Out | Err
  {
    function Fd(): int {
      if Out? then 1 else 2
    }
  }

  /** An open end of something that holds bytes: a pipe, a file or a terminal. */
  datatype File = WriteEnd(id: nat) | ReadEnd(id: nat)

  /** What is written to fd goes to d. */
  predicate Writes(fds: map<int, File>, fd: int, d: nat) {
    fd in fds && fds[fd] == WriteEnd(d)
  }

  const CHUNK := 4096

  /** The process's descriptor table and the bytes each device holds or has received. */
  class Kernel {
    var fds: map<int, File>
    var store: map<nat, string>
    var nonblocking: set<nat>

    constructor (fds: map<int, File>, store: map<nat, string>)
      ensures this.fds == fds && this.store == store && nonblocking == {}
    {
      this.fds, this.store, nonblocking := fds, store, {};
    }

    ghost predicate Valid()
      reads this
    {
      forall fd :: fd in fds ==> fds[fd].id in store
    }

    predicate HasWriter(id: nat)
      reads this
    {
      exists fd :: fd in fds && fds[fd] == WriteEnd(id)
    }

    /** A read that would wait: nothing to read, someone may still write, and the reader
        did not ask to be told so. */
    ghost predicate WouldBlock(fd: int)
      requires Valid() && fd in fds
      reads this
    {
      store[fds[fd].id] == "" && HasWriter(fds[fd].id) && fds[fd].id !in nonblocking
    }

    method Pipe(r: int, w: int, id: nat)
      requires Valid() && r !in fds && w !in fds && r != w && id !in store
      modifies this
      ensures Valid() && fds == old(fds)[r := ReadEnd(id)][w := WriteEnd(id)]
      ensures store == old(store)[id := ""] && nonblocking == old(nonblocking)
    {
      fds := fds[r := ReadEnd(id)][w := WriteEnd(id)];
      store := store[id := ""];
    }

    method Dup(fd: int, copy: int)
      requires Valid() && fd in fds && copy !in fds
      modifies this`fds
      ensures Valid() && fds == old(fds)[copy := old(fds)[fd]]
    {
      fds := fds[copy := fds[fd]];
    }

    method Dup2(fd: int, target: int)
      requires Valid() && fd in fds
      modifies this`fds
      ensures Valid() && fds == old(fds)[target := old(fds)[fd]]
    {
      fds := fds[target := fds[fd]];
    }

    /** Closing a descriptor that is not open has no effect. */
    method Close(fd: int)
      requires Valid()
      modifies this`fds
      ensures Valid() && fds == old(fds) - {fd}
    {
      fds := fds - {fd};
    }

    /** Writing to a descriptor that is not open for writing has no effect. */
    method Write(fd: int, msg: string)
      requires Valid()
      modifies this`store
      ensures Valid() && store.Keys == old(store).Keys
      ensures forall d :: d in store ==>
                store[d] == old(store)[d] + if Writes(fds, fd, d) then msg else ""
    {
      if fd in fds && fds[fd].WriteEnd? {
        store := store[fds[fd].id := store[fds[fd].id] + msg];
      }
    }

    /** n > 0: that many bytes were read; 0: end of file; -1: nothing to read just now. */
    method Read(fd: int) returns (n: int, chunk: string)
      requires Valid() && fd in fds && fds[fd].ReadEnd?
      requires !WouldBlock(fd)
      modifies this`store
      ensures Valid() && n <= |old(store)[fds[fd].id]|
      ensures n > 0 <==> old(store)[fds[fd].id] != ""
      ensures n > 0 ==> chunk == old(store)[fds[fd].id][..n] && store == old(store)[fds[fd].id := old(store)[fds[fd].id][n..]]
      ensures n <= 0 ==> store == old(store)
      ensures n == 0 <==> old(store)[fds[fd].id] == "" && !HasWriter(fds[fd].id)
    {
      var id := fds[fd].id;
      if store[id] == "" {
        chunk := "";
        if id in nonblocking && HasWriter(id) {
          n := -1;
        } else {
          n := 0;
        }
      } else {
        n := if |store[id]| < CHUNK then |store[id]| else CHUNK;
        chunk := store[id][..n];
        store := store[id := store[id][n..]];
      }
    }

    method SetNonblocking(fd: int, on: bool)
      requires Valid() && fd in fds
      modifies this`nonblocking
      ensures nonblocking == if on then old(nonblocking) + {fds[fd].id} else old(nonblocking) - {fds[fd].id}
    {
      nonblocking := if on then nonblocking + {fds[fd].id} else nonblocking - {fds[fd].id};
    }
  }

  /** Putting the saved descriptor back undoes the redirection; only the read end is left. */
  lemma Restored(base: map<int, File>, fd: int, r: int, saved: int, id: nat)
    requires fd in base && r !in base && saved !in base && r != saved && r >= 0 && saved >= 0 && -1 !in base
    ensures var during := base[fd := WriteEnd(id)][r := ReadEnd(id)][saved := base[fd]] - {-1};
            during[fd := base[fd]] - {saved} == base[r := ReadEnd(id)]
    ensures base[r := ReadEnd(id)] - {r} == base
  {
  }

  /** Closing both ends of a pipe gives the descriptor table back. */
  lemma GrantReturned(fds: map<int, File>, os: Grant)
    requires os.r !in fds && os.w !in fds
    ensures fds[os.r := ReadEnd(os.id)][os.w := WriteEnd(os.id)] - {os.r} - {os.w} == fds
  {
  }

  lemma Redirected(fds: map<int, File>, fd: int, os: Grant)
    requires fd in fds && os.r !in fds && os.w !in fds && os.saved !in fds && os.r != os.w && os.r != os.saved && os.w != os.saved
    ensures fds[os.r := ReadEnd(os.id)][os.w := WriteEnd(os.id)][os.saved := fds[fd]][fd := WriteEnd(os.id)] - {os.w} ==
            fds[fd := WriteEnd(os.id)][os.r := ReadEnd(os.id)][os.saved := fds[fd]]
  {
  }

  /** What the operating system hands out when a capture begins. */
  datatype Grant = Grant(pipeOk: bool, r: int, w: int, id: nat, dupOk: bool, saved: int)

  ghost predicate Grantable(os: Grant, fds: map<int, File>, store: map<nat, string>) {
    && os.r !in fds && os.w !in fds && os.saved !in fds && os.id !in store
    && os.r != os.w && os.r != os.saved && os.w != os.saved
    && os.r >= 0 && os.w >= 0 && os.saved >= 0
  }

  class StdoutCapture {
    var pipeRead: int
    var pipeWrite: int
    var savedStdout: int
    var savedStderr: int
    var capturingStdout: bool
    var capturingStderr: bool
    var buffer: string

    constructor ()
      ensures !capturingStdout && !capturingStderr && buffer == "" && pipeWrite == -1
    {
      pipeRead, pipeWrite, savedStdout, savedStderr := -1, -1, -1, -1;
      capturingStdout, capturingStderr, buffer := false, false, "";
    }

    predicate Capturing(s: Stream)
      reads this
    {
      if s.Out? then capturingStdout else capturingStderr
    }

    function Saved(s: Stream): int
      reads this
    {
      if s.Out? then savedStdout else savedStderr
    }

    predicate Idle()
      reads this
    {
      !capturingStdout && !capturingStderr
    }

    /** One capture, of stream s through pipe id, is under way; base is the descriptor
        table from before it began. */
    ghost predicate Active(k: Kernel, s: Stream, id: nat, base: map<int, File>)
      reads this, k
    {
      && k.Valid() && id in k.store && id !in k.nonblocking
      && capturingStdout == s.Out? && capturingStderr == s.Err? && pipeWrite == -1
      && pipeRead !in base && Saved(s) !in base && pipeRead != Saved(s) && pipeRead >= 0 && Saved(s) >= 0 && -1 !in base
      && Stream.Out.Fd() in base && Stream.Err.Fd() in base
      && (forall fd :: fd in base ==> base[fd].id != id && base[fd].id in k.store)
      && k.fds == base[s.Fd() := WriteEnd(id)][pipeRead := ReadEnd(id)][Saved(s) := base[s.Fd()]]
    }

    /** Everything the object holds. */
    function Fields(): (int, int, int, int, bool, bool, string)
      reads this
    {
      (pipeRead, pipeWrite, savedStdout, savedStderr, capturingStdout, capturingStderr, buffer)
    }

    /** begin_stdout and begin_stderr, which differ only in the stream.  A begin that is refused
        before there is a pipe leaves everything alone, whatever is under way. */
    method Begin(k: Kernel, s: Stream, os: Grant) returns (ok: bool)
      requires k.Valid() && (!Capturing(s) && os.pipeOk ==> Grantable(os, k.fds, k.store))
      requires Stream.Out.Fd() in k.fds && Stream.Err.Fd() in k.fds && -1 !in k.fds
      modifies this, k
      ensures k.nonblocking == old(k.nonblocking) && k.Valid()
      ensures ok <==> !old(Capturing(s)) && os.pipeOk && os.dupOk
      ensures old(Capturing(s)) || !os.pipeOk ==> Fields() == old(Fields()) && k.fds == old(k.fds) && k.store == old(k.store)
      ensures !ok ==> k.fds == old(k.fds) && buffer == old(buffer)
      ensures !ok ==> capturingStdout == old(capturingStdout) && capturingStderr == old(capturingStderr)
      ensures !old(Capturing(s)) && os.pipeOk ==> k.store == old(k.store)[os.id := ""] && pipeRead == os.r
      ensures !old(Capturing(s)) && os.pipeOk && !os.dupOk ==> pipeWrite == os.w && Saved(s) == -1
      ensures ok ==> Capturing(s) && pipeWrite == -1 && buffer == "" && Saved(s) == os.saved
      ensures ok ==> k.fds == old(k.fds)[s.Fd() := WriteEnd(os.id)][os.r := ReadEnd(os.id)][os.saved := old(k.fds)[s.Fd()]]
      ensures s.Out? ==> savedStderr == old(savedStderr) && capturingStderr == old(capturingStderr)
      ensures s.Err? ==> savedStdout == old(savedStdout) && capturingStdout == old(capturingStdout)
      ensures ok && old(Idle()) && os.id !in k.nonblocking ==> Active(k, s, os.id, old(k.fds))
    {
      if Capturing(s) {
        return false;
      }
      if !os.pipeOk {
        return false;
      }
      k.Pipe(os.r, os.w, os.id);
      pipeRead, pipeWrite := os.r, os.w;
      var saved := -1;
      if os.dupOk {
        k.Dup(s.Fd(), os.saved);
        saved := os.saved;
      }
      SetSaved(s, saved);
      if saved < 0 {
        k.Close(os.r);
        k.Close(os.w);
        GrantReturned(old(k.fds), os);
        return false;
      }
      Redirect(k, s);
      Redirected(old(k.fds), s.Fd(), os);
      ok := true;
    }

    method Redirect(k: Kernel, s: Stream)
      requires k.Valid() && pipeWrite in k.fds
      modifies this`pipeWrite, this`capturingStdout, this`capturingStderr, this`buffer, k`fds
      ensures k.Valid() && k.fds == old(k.fds[s.Fd() := k.fds[pipeWrite]] - {pipeWrite})
      ensures pipeWrite == -1 && buffer == "" && Capturing(s)
      ensures (s.Out? ==> capturingStderr == old(capturingStderr)) && (s.Err? ==> capturingStdout == old(capturingStdout))
    {
      k.Dup2(pipeWrite, s.Fd());
      k.Close(pipeWrite);
      pipeWrite := -1;
      SetCapturing(s, true);
      buffer := "";
    }

    method SetSaved(s: Stream, fd: int)
      modifies this`savedStdout, this`savedStderr
      ensures Saved(s) == fd && (s.Out? ==> savedStderr == old(savedStderr)) && (s.Err? ==> savedStdout == old(savedStdout))
    {
      if s.Out? {
        savedStdout := fd;
      } else {
        savedStderr := fd;
      }
    }

    method SetCapturing(s: Stream, on: bool)
      modifies this`capturingStdout, this`capturingStderr
      ensures Capturing(s) == on
      ensures (s.Out? ==> capturingStderr == old(capturingStderr)) && (s.Err? ==> capturingStdout == old(capturingStdout))
    {
      if s.Out? {
        capturingStdout := on;
      } else {
        capturingStderr := on;
      }
    }

    /** The read loop of End and Peek: move what the pipe holds to the buffer.  It ends at
        end of file or, without blocking, when the pipe is empty. */
    method Drain(k: Kernel)
      requires k.Valid() && pipeRead in k.fds && k.fds[pipeRead].ReadEnd?
      requires k.fds[pipeRead].id in k.store
      requires k.HasWriter(k.fds[pipeRead].id) ==> k.fds[pipeRead].id in k.nonblocking
      modifies this`buffer, k`store
      ensures k.Valid() && buffer == old(buffer + k.store[k.fds[pipeRead].id])
      ensures k.store == old(k.store[k.fds[pipeRead].id := ""])
    {
      var id := k.fds[pipeRead].id;
      var n, chunk := k.Read(pipeRead);
      while n > 0
        invariant k.Valid() && k.store.Keys == old(k.store).Keys
        invariant n > 0 ==> buffer + chunk + k.store[id] == old(buffer) + old(k.store)[id]
        invariant n <= 0 ==> k.store[id] == "" && buffer == old(buffer) + old(k.store)[id]
        invariant k.store == old(k.store)[id := k.store[id]]
        decreases |k.store[id]| + if n > 0 then 1 else 0
      {
        buffer := buffer + chunk;
        n, chunk := k.Read(pipeRead);
      }
    }

    /** peek: drain without blocking; the capture goes on.  With no capture under way the
        last text is still there. */
    method Peek(k: Kernel, ghost s: Stream, ghost id: nat, ghost base: map<int, File>) returns (text: string)
      requires Idle() || Active(k, s, id, base)
      modifies this`buffer, k`store, k`nonblocking
      ensures old(Idle()) ==> Idle() && text == buffer == old(buffer) && k.store == old(k.store)
      ensures !old(Idle()) ==> Active(k, s, id, base)
      ensures !old(Idle()) ==> text == buffer == old(buffer) + old(k.store)[id] && k.store == old(k.store)[id := ""]
      ensures k.nonblocking == old(k.nonblocking)
    {
      if Idle() {
        return buffer;
      }
      k.SetNonblocking(pipeRead, true);
      Drain(k);
      k.SetNonblocking(pipeRead, false);
      text := buffer;
    }

    /** The descriptor table with every captured stream put back from its saved descriptor. */
    ghost function PutBack(fds: map<int, File>): map<int, File>
      requires capturingStdout ==> savedStdout in fds
      requires capturingStderr ==> savedStderr in fds && savedStderr != Stream.Out.Fd()
      requires capturingStdout && capturingStderr ==> savedStderr != savedStdout
      reads this
    {
      var out := if capturingStdout then fds[Stream.Out.Fd() := fds[savedStdout]] - {savedStdout} else fds;
      if capturingStderr then out[Stream.Err.Fd() := out[savedStderr]] - {savedStderr} else out
    }

    /** Captures are under way that End can end: it finds its descriptors, and once the streams
        are put back nobody can write to the pipe it reads. */
    ghost predicate Endable(k: Kernel)
      reads this, k
    {
      && k.Valid() && !Idle() && pipeWrite !in k.fds && pipeRead in k.fds && k.fds[pipeRead].ReadEnd?
      && (capturingStdout ==> savedStdout in k.fds && savedStdout != pipeRead)
      && (capturingStderr ==> savedStderr in k.fds && savedStderr != pipeRead && savedStderr != Stream.Out.Fd())
      && (capturingStdout && capturingStderr ==> savedStderr != savedStdout)
      && pipeRead != Stream.Out.Fd() && pipeRead != Stream.Err.Fd()
      && forall fd :: fd in PutBack(k.fds) ==> PutBack(k.fds)[fd] != WriteEnd(k.fds[pipeRead].id)
    }

    /** A single capture can be ended, which gives the descriptor table of before it back. */
    lemma ActiveEnds(k: Kernel, s: Stream, id: nat, base: map<int, File>)
      requires Active(k, s, id, base)
      ensures Endable(k) && k.fds[pipeRead] == ReadEnd(id)
      ensures PutBack(k.fds) == base[pipeRead := ReadEnd(id)] && PutBack(k.fds) - {pipeRead} == base
    {
      Restored(base, s.Fd(), pipeRead, Saved(s), id);
    }

    /** end_capture: restore the streams, drain the pipe to end of file, close it, and write
        the captured text to standard output.  With no capture under way, no effect. */
    method End(k: Kernel, ghost s: Stream, ghost id: nat, ghost base: map<int, File>) returns (text: string)
      requires Idle() || Active(k, s, id, base) || Endable(k)
      modifies this, k`fds, k`store
      ensures Idle() && text == buffer
      ensures old(Idle()) ==> text == old(buffer) && k.fds == old(k.fds) && k.store == old(k.store)
      ensures old(Endable(k)) ==> k.Valid() && k.fds == old(PutBack(k.fds)) - {old(pipeRead)} && k.store.Keys == old(k.store).Keys
      ensures old(Endable(k)) ==> text == old(buffer + k.store[k.fds[pipeRead].id])
      ensures old(Endable(k)) ==> forall d :: d in k.store && d != old(k.fds[pipeRead].id) ==>
                k.store[d] == old(k.store)[d] + if Writes(k.fds, Stream.Out.Fd(), d) then text else ""
      ensures old(Active(k, s, id, base)) ==> k.Valid() && k.fds == base && k.store.Keys == old(k.store).Keys
      ensures old(Active(k, s, id, base)) ==> text == old(buffer) + old(k.store)[id]
      ensures old(Active(k, s, id, base)) ==> forall d :: d in k.store && d != id ==>
                k.store[d] == old(k.store)[d] + if Writes(base, Stream.Out.Fd(), d) then text else ""
    {
      if Idle() {
        return buffer;
      }
      hide PutBack, Endable, Active, Writes;
      if Active(k, s, id, base) {
        ActiveEnds(k, s, id, base);
      }
      RestoreStreams(k);
      TakeRest(k);
      text := buffer;
    }

    /** The rest of end_capture: nobody can write to the pipe any more. */
    method TakeRest(k: Kernel)
      requires k.Valid() && pipeRead in k.fds && k.fds[pipeRead].ReadEnd? && k.fds[pipeRead].id in k.store
      requires !k.HasWriter(k.fds[pipeRead].id)
      modifies this`buffer, this`pipeRead, k`fds, k`store
      ensures k.Valid() && k.fds == old(k.fds) - {old(pipeRead)} && k.store.Keys == old(k.store).Keys
      ensures buffer == old(buffer + k.store[k.fds[pipeRead].id])
      ensures forall d :: d in k.store && d != old(k.fds[pipeRead].id) ==>
                k.store[d] == old(k.store)[d] + if Writes(k.fds, Stream.Out.Fd(), d) then buffer else ""
    {
      Drain(k);
      k.Close(pipeRead);
      pipeRead := -1;
      k.Write(Stream.Out.Fd(), buffer);
    }

    /** Both streams lead again where they did, and nobody can write to the pipe. */
    method RestoreStreams(k: Kernel)
      requires Endable(k)
      modifies this`pipeWrite, this`savedStdout, this`savedStderr, this`capturingStdout, this`capturingStderr, k`fds
      ensures Idle() && k.Valid() && k.fds == old(PutBack(k.fds)) && pipeRead in old(k.fds)
      ensures pipeRead in k.fds && k.fds[pipeRead].ReadEnd? && k.fds[pipeRead] == old(k.fds[pipeRead])
      ensures !k.HasWriter(k.fds[pipeRead].id)
    {
      k.Close(pipeWrite);
      pipeWrite := -1;
      if capturingStdout {
        k.Dup2(savedStdout, Stream.Out.Fd());
        k.Close(savedStdout);
        savedStdout := -1;
        capturingStdout := false;
      }
      if capturingStderr {
        k.Dup2(savedStderr, Stream.Err.Fd());
        k.Close(savedStderr);
        savedStderr := -1;
        capturingStderr := false;
      }
    }

    /** write_stdout and write_stderr: past the capture, if there is one. */
    method WritePast(k: Kernel, s: Stream, msg: string)
      requires k.Valid()
      modifies k`store
      ensures k.Valid() && k.store.Keys == old(k.store).Keys
      ensures var target := if Capturing(s) && Saved(s) >= 0 then Saved(s) else s.Fd();
              forall d :: d in k.store ==>
                k.store[d] == old(k.store)[d] + if target in k.fds && k.fds[target] == WriteEnd(d) then msg else ""
    {
      var target := if Capturing(s) && Saved(s) >= 0 then Saved(s) else s.Fd();
      k.Write(target, msg);
    }
  }

  // ---------------------------------------------------------------------------
  // Whole captures
  // ---------------------------------------------------------------------------

  datatype Event = Print(s: Stream, msg: string) | Past(s: Stream, msg: string) | PeekNow | BeginAgain(s: Stream, os: Grant)

  /** A begin during a capture is refused when it is for the same stream, or there is no pipe. */
  predicate Refused(which: Stream, e: Event) {
    e.BeginAgain? ==> e.s == which || !e.os.pipeOk
  }

  predicate AllRefused(which: Stream, events: seq<Event>) {
    forall i :: 0 <= i < |events| ==> Refused(which, events[i])
  }

  /** What one event adds to the captured text. */
  function CapturedBy(which: Stream, e: Event): string {
    if e.Print? && e.s == which then e.msg else ""
  }

  /** What one event sends, at once, to the device d. */
  function SentBy(which: Stream, base: map<int, File>, e: Event, d: nat): string {
    if e.PeekNow? || e.BeginAgain? || (e.Print? && e.s == which) then ""
    else if e.s.Fd() in base && base[e.s.Fd()] == WriteEnd(d) then e.msg
    else ""
  }

  function Captured(which: Stream, events: seq<Event>): string {
    if events == [] then "" else Captured(which, events[..|events| - 1]) + CapturedBy(which, events[|events| - 1])
  }

  function Sent(which: Stream, base: map<int, File>, events: seq<Event>, d: nat): string {
    if events == [] then ""
    else Sent(which, base, events[..|events| - 1], d) + SentBy(which, base, events[|events| - 1], d)
  }

  /** What the Peeks among the events return. */
  function Peeked(which: Stream, events: seq<Event>): seq<string> {
    if events == [] then []
    else
      var before := events[..|events| - 1];
      Peeked(which, before) + if events[|events| - 1].PeekNow? then [Captured(which, before)] else []
  }

  /** Where the descriptors lead during a capture. */
  lemma DuringFds(cap: StdoutCapture, k: Kernel, which: Stream, id: nat, base: map<int, File>)
    requires cap.Active(k, which, id, base)
    ensures k.Valid() && id in k.store && cap.Capturing(which) && !cap.Idle()
    ensures which.Fd() in k.fds && k.fds[which.Fd()] == WriteEnd(id)
    ensures cap.Saved(which) >= 0 && cap.Saved(which) in k.fds && k.fds[cap.Saved(which)] == base[which.Fd()]
    ensures forall s: Stream :: s.Fd() in base && base[s.Fd()].id != id
    ensures forall s: Stream :: s != which ==> !cap.Capturing(s) && s.Fd() in k.fds && k.fds[s.Fd()] == base[s.Fd()]
  {
  }

  /** A stream write or a write past the capture, while it is under way. */
  method WriteDuring(cap: StdoutCapture, k: Kernel, past: bool, s: Stream, msg: string,
                     ghost which: Stream, ghost id: nat, ghost base: map<int, File>)
    requires cap.Active(k, which, id, base)
    modifies k`store
    ensures cap.Active(k, which, id, base) && k.store.Keys == old(k.store).Keys
    ensures var target := if past && cap.Capturing(s) && cap.Saved(s) >= 0 then cap.Saved(s) else s.Fd();
            forall d :: d in k.store ==>
              k.store[d] == old(k.store)[d] + if target in k.fds && k.fds[target] == WriteEnd(d) then msg else ""
  {
    if past {
      cap.WritePast(k, s, msg);
    } else {
      k.Write(s.Fd(), msg);
    }
  }

  method WriteEvent(cap: StdoutCapture, k: Kernel, e: Event, ghost which: Stream, ghost id: nat, ghost base: map<int, File>)
    requires cap.Active(k, which, id, base) && (e.Print? || e.Past?)
    modifies k`store
    ensures cap.Active(k, which, id, base) && k.store.Keys == old(k.store).Keys
    ensures id in k.store && k.store[id] == old(k.store)[id] + CapturedBy(which, e)
    ensures forall d :: d in k.store && d != id ==> k.store[d] == old(k.store)[d] + SentBy(which, base, e, d)
  {
    hide StdoutCapture.Active;
    DuringFds(cap, k, which, id, base);
    WriteDuring(cap, k, e.Past?, e.s, e.msg, which, id, base);
  }

  /** A begin while stream which is captured: the capture goes on untouched just when the begin
      is refused for that reason or for want of a pipe.  Otherwise, for the other stream or with
      a pipe but no descriptor to save it, the object has lost the capture's pipe. */
  method BeginDuring(cap: StdoutCapture, k: Kernel, s: Stream, os: Grant,
                     ghost which: Stream, ghost id: nat, ghost base: map<int, File>) returns (ok: bool)
    requires cap.Active(k, which, id, base)
    requires s != which && os.pipeOk ==> Grantable(os, k.fds, k.store)
    modifies cap, k
    ensures cap.Active(k, which, id, base) <==> s == which || !os.pipeOk
    ensures s == which || !os.pipeOk ==>
              !ok && cap.buffer == old(cap.buffer) && k.store == old(k.store) && k.nonblocking == old(k.nonblocking)
  {
    ok := cap.Begin(k, s, os);
  }

  method Perform(cap: StdoutCapture, k: Kernel, e: Event, ghost which: Stream, ghost id: nat, ghost base: map<int, File>)
      returns (peeked: seq<string>)
    requires cap.Active(k, which, id, base) && Refused(which, e)
    modifies cap, k
    ensures cap.Active(k, which, id, base) && k.nonblocking == old(k.nonblocking) && k.store.Keys == old(k.store).Keys
    ensures cap.buffer + k.store[id] == old(cap.buffer + k.store[id]) + CapturedBy(which, e)
    ensures forall d :: d in k.store && d != id ==> k.store[d] == old(k.store)[d] + SentBy(which, base, e, d)
    ensures peeked == if e.PeekNow? then [old(cap.buffer + k.store[id])] else []
  {
    hide StdoutCapture.Active;
    DuringFds(cap, k, which, id, base);
    if e.PeekNow? {
      var text := cap.Peek(k, which, id, base);
      peeked := [text];
    } else if e.BeginAgain? {
      var _ := BeginDuring(cap, k, e.s, e.os, which, id, base);
      peeked := [];
    } else {
      hide CapturedBy, SentBy;
      WriteEvent(cap, k, e, which, id, base);
      assert cap.buffer + (old(k.store)[id] + CapturedBy(which, e)) == cap.buffer + old(k.store)[id] + CapturedBy(which, e);
      peeked := [];
    }
  }

  ghost predicate Received(start: map<nat, string>, now: map<nat, string>,
                           which: Stream, base: map<int, File>, events: seq<Event>)
  {
    forall d :: d in start ==> d in now && now[d] == start[d] + Sent(which, base, events, d)
  }

  lemma EventStep(events: seq<Event>, i: nat, which: Stream)
    requires i < |events|
    ensures Captured(which, events[..i + 1]) == Captured(which, events[..i]) + CapturedBy(which, events[i])
    ensures Peeked(which, events[..i + 1]) ==
            Peeked(which, events[..i]) + if events[i].PeekNow? then [Captured(which, events[..i])] else []
  {
    assert events[..i + 1][..i] == events[..i];
  }

  lemma ReceivedStep(start: map<nat, string>, before: map<nat, string>, now: map<nat, string>,
                     which: Stream, base: map<int, File>, events: seq<Event>, i: nat)
    requires i < |events| && Received(start, before, which, base, events[..i])
    requires forall d :: d in start && d in before ==>
               d in now && now[d] == before[d] + SentBy(which, base, events[i], d)
    ensures Received(start, now, which, base, events[..i + 1])
  {
    hide SentBy;
    assert events[..i + 1][..i] == events[..i];
  }

  /** The events of a capture, in any order, between Begin and End. */
  method RunEvents(cap: StdoutCapture, k: Kernel, events: seq<Event>,
                   ghost which: Stream, ghost id: nat, ghost base: map<int, File>)
      returns (peeks: seq<string>)
    requires cap.Active(k, which, id, base) && cap.buffer + k.store[id] == "" && AllRefused(which, events)
    modifies cap, k
    ensures cap.Active(k, which, id, base) && k.nonblocking == old(k.nonblocking)
    ensures cap.buffer + k.store[id] == Captured(which, events) && peeks == Peeked(which, events)
    ensures Received(old(k.store) - {id}, k.store, which, base, events)
  {
    hide Captured, Peeked, Sent, SentBy, CapturedBy, Received;
    NoEvents(which, base, k.store, id);
    ghost var start := k.store - {id};
    peeks := [];
    var i := 0;
    assert events[..0] == [];
    while i < |events|
      invariant i <= |events| && cap.Active(k, which, id, base) && k.nonblocking == old(k.nonblocking)
      invariant cap.buffer + k.store[id] == Captured(which, events[..i]) && peeks == Peeked(which, events[..i])
      invariant Received(start, k.store, which, base, events[..i])
    {
      EventStep(events, i, which);
      assert Refused(which, events[i]);
      ghost var before := k.store;
      var peeked := Perform(cap, k, events[i], which, id, base);
      ReceivedStep(start, before, k.store, which, base, events, i);
      peeks := peeks + peeked;
      i := i + 1;
    }
    assert events[..|events|] == events;
  }

  lemma NoEvents(which: Stream, base: map<int, File>, store: map<nat, string>, id: nat)
    ensures Captured(which, []) == "" && Peeked(which, []) == [] && Received(store - {id}, store, which, base, [])
  {
  }

  /** What a whole capture adds to device d: the events, and then End's copy of the text. */
  function Left(which: Stream, base: map<int, File>, events: seq<Event>, d: nat): string
    requires Stream.Out.Fd() in base
  {
    Sent(which, base, events, d) + if base[Stream.Out.Fd()] == WriteEnd(d) then Captured(which, events) else ""
  }

  /** Something is printed to the captured stream. */
  ghost predicate PrintsTo(which: Stream, events: seq<Event>) {
    exists i :: 0 <= i < |events| && events[i].Print? && events[i].s == which && events[i].msg != ""
  }

  /** The documented tee, which passes captured text on to the stream it was captured from,
      is kept: the stream is stdout, or both streams are one device, or nothing was printed. */
  ghost predicate TeeKept(which: Stream, base: map<int, File>, events: seq<Event>)
    requires Stream.Out.Fd() in base && Stream.Err.Fd() in base
  {
    which.Out? || base[Stream.Out.Fd()] == base[Stream.Err.Fd()] || !PrintsTo(which, events)
  }

  lemma {:induction false} NothingCaptured(which: Stream, events: seq<Event>)
    ensures Captured(which, events) == "" <==> !PrintsTo(which, events)
  {
    if events != [] {
      var before, last := events[..|events| - 1], |events| - 1;
      NothingCaptured(which, before);
      if PrintsTo(which, before) {
        var i :| 0 <= i < |before| && before[i].Print? && before[i].s == which && before[i].msg != "";
        assert events[i] == before[i];
      }
      if PrintsTo(which, events) && CapturedBy(which, events[last]) == "" {
        var i :| 0 <= i < |events| && events[i].Print? && events[i].s == which && events[i].msg != "";
        assert before[i] == events[i];
      }
    }
  }

  lemma TeeIff(which: Stream, base: map<int, File>, events: seq<Event>, d: nat)
    requires Stream.Out.Fd() in base && Stream.Err.Fd() in base && base[which.Fd()] == WriteEnd(d)
    ensures Left(which, base, events, d) == Sent(which, base, events, d) + Captured(which, events)
       <==> TeeKept(which, base, events)
  {
    NothingCaptured(which, events);
    if Left(which, base, events, d) == Sent(which, base, events, d) + Captured(which, events) {
      assert |Left(which, base, events, d)| == |Sent(which, base, events, d)| + |Captured(which, events)|;
    }
  }

  /** One whole capture, for every sequence of stream writes, writes past the capture and
      Peeks.  The read loops never wait: End drains the pipe only once nobody can write. */
  method Session(cap: StdoutCapture, k: Kernel, which: Stream, os: Grant, events: seq<Event>)
      returns (ok: bool, peeks: seq<string>, text: string)
    requires k.Valid() && Grantable(os, k.fds, k.store) && os.id !in k.nonblocking && cap.Idle() && AllRefused(which, events)
    requires Stream.Out.Fd() in k.fds && Stream.Err.Fd() in k.fds && -1 !in k.fds
    modifies cap, k
    ensures ok <==> os.pipeOk && os.dupOk
    ensures cap.Idle() && k.fds == old(k.fds) && k.nonblocking == old(k.nonblocking)
    ensures ok ==> text == Captured(which, events) && peeks == Peeked(which, events)
    ensures ok ==> forall d :: d in old(k.store) ==>
              d in k.store &&
              k.store[d] == old(k.store)[d] + Left(which, old(k.fds), events, d)
    ensures ok ==> forall d :: d in old(k.store) && old(k.fds)[which.Fd()] == WriteEnd(d) ==>
              (k.store[d] == old(k.store)[d] + Sent(which, old(k.fds), events, d) + text
               <==> TeeKept(which, old(k.fds), events))
  {
    hide Captured, Peeked, Sent, TeeKept;
    peeks, text := [], "";
    ghost var base, start := k.fds, k.store;
    ok := cap.Begin(k, which, os);
    if ok {
      peeks := RunEvents(cap, k, events, which, os.id, base);
      text := cap.End(k, which, os.id, base);
      forall d | d in start
        ensures d in k.store && k.store[d] == start[d] + Left(which, base, events, d)
        ensures base[which.Fd()] == WriteEnd(d) ==>
                  (k.store[d] == start[d] + Sent(which, base, events, d) + text <==> TeeKept(which, base, events))
      {
        hide StdoutCapture.Active;
        Delivered(which, base, events, d, start[d], text);
      }
    }
  }

  /** Device d after the events and End. */
  lemma Delivered(which: Stream, base: map<int, File>, events: seq<Event>, d: nat, start: string, text: string)
    requires Stream.Out.Fd() in base && Stream.Err.Fd() in base && text == Captured(which, events)
    ensures var now := start + Sent(which, base, events, d) + if Writes(base, Stream.Out.Fd(), d) then text else "";
            && now == start + Left(which, base, events, d)
            && (base[which.Fd()] == WriteEnd(d) ==>
                  (now == start + Sent(which, base, events, d) + text <==> TeeKept(which, base, events)))
  {
    hide Captured, Sent, TeeKept;
    if base[which.Fd()] == WriteEnd(d) {
      TeeIff(which, base, events, d);
      SamePrefix(start, Left(which, base, events, d), Sent(which, base, events, d), text);
    }
  }

  lemma SamePrefix(p: string, x: string, y: string, z: string)
    ensures p + x == p + y + z <==> x == y + z
  {
    assert p + y + z == p + (y + z);
    assert (p + x)[|p|..] == x && (p + (y + z))[|p|..] == y + z;
  }

  /** A capture for which the documented tee fails: stderr captured, on a device of its own. */
  method StderrTextGoesToStdout() returns (ok: bool, captured: string, out: string, err: string)
    ensures ok && captured == "x" && out == "x" && err == ""
  {
    var k := new Kernel(map[1 := WriteEnd(0), 2 := WriteEnd(1)], map[0 := "", 1 := ""]);
    var cap := new StdoutCapture();
    var events := [Print(Stream.Err, "x")];
    ghost var base := k.fds;
    assert events[..0] == [];
    var peeks;
    ok, peeks, captured := Session(cap, k, Stream.Err, Grant(true, 3, 4, 2, true, 5), events);
    out, err := k.store[0], k.store[1];
  }

  /** A second redirection of the other stream, undone together with the first: the read end of
      the first pipe is left over. */
  lemma OverlayUndone(base: map<int, File>, which: Stream, s: Stream, r: int, saved: int, id: nat, os: Grant)
    requires which != s && which.Fd() in base && s.Fd() in base && r !in base && saved !in base && r != saved
    requires os.r !in base && os.saved !in base && os.r != os.saved && {os.r, os.saved} !! {r, saved}
    ensures var f := base[which.Fd() := WriteEnd(id)][r := ReadEnd(id)][saved := base[which.Fd()]];
            var g := f[s.Fd() := WriteEnd(os.id)][os.r := ReadEnd(os.id)][os.saved := f[s.Fd()]];
            var left := base[r := ReadEnd(id)][os.r := ReadEnd(os.id)];
            && saved in g && os.saved in g
            && (g[which.Fd() := g[saved]] - {saved})[s.Fd() := g[os.saved]] - {os.saved} == left
            && (g[s.Fd() := g[os.saved]] - {os.saved})[which.Fd() := g[saved]] - {saved} == left
            && left - {os.r} == base[r := ReadEnd(id)]
  {
  }

  /** Beginning to capture the other stream is not refused, as Begin during a capture is
      documented to be: the new pipe replaces the one under way.  What that one holds is neither
      returned nor passed on, and its read end stays open. */
  method OtherCaptureLosesText(cap: StdoutCapture, k: Kernel, s: Stream, os: Grant,
                               ghost which: Stream, ghost id: nat, ghost base: map<int, File>)
      returns (ok: bool, text: string)
    requires cap.Active(k, which, id, base) && s != which && Grantable(os, k.fds, k.store) && os.pipeOk && os.dupOk
    modifies cap, k
    ensures ok && text == "" && cap.Idle()
    ensures k.fds == base[old(cap.pipeRead) := ReadEnd(id)]
    ensures forall d :: d in old(k.store) ==> d in k.store && k.store[d] == old(k.store)[d]
  {
    ghost var r, saved := cap.pipeRead, cap.Saved(which);
    ok := cap.Begin(k, s, os);
    OverlayUndone(base, which, s, r, saved, id, os);
    assert cap.PutBack(k.fds) == base[r := ReadEnd(id)][os.r := ReadEnd(os.id)];
    assert cap.Endable(k);
    text := cap.End(k, s, os.id, base);
  }

  // ---------------------------------------------------------------------------
  // Laws of the specification
  // ---------------------------------------------------------------------------

  lemma {:induction false} CapturedGrows(which: Stream, events: seq<Event>, more: seq<Event>)
    ensures Captured(which, events) <= Captured(which, events + more)
  {
    if more == [] {
      assert events + more == events;
    } else {
      var n := |more| - 1;
      CapturedGrows(which, events, more[..n]);
      assert (events + more)[..|events + more| - 1] == events + more[..n];
    }
  }

  /** Every Peek returns a prefix of what End returns, and successive Peeks grow. */
  lemma {:induction false} PeeksGrow(which: Stream, events: seq<Event>)
    ensures forall i :: 0 <= i < |Peeked(which, events)| ==> Peeked(which, events)[i] <= Captured(which, events)
    ensures forall i, j :: 0 <= i < j < |Peeked(which, events)| ==> Peeked(which, events)[i] <= Peeked(which, events)[j]
  {
    if events != [] {
      var before := events[..|events| - 1];
      PeeksGrow(which, before);
      CapturedGrows(which, before, [events[|events| - 1]]);
      assert before + [events[|events| - 1]] == events;
    }
  }

  function WrittenBy(e: Event): string {
    if e.Print? || e.Past? then e.msg else ""
  }

  /** All bytes written by the events, in order. */
  function Written(events: seq<Event>): string {
    if events == [] then "" else Written(events[..|events| - 1]) + WrittenBy(events[|events| - 1])
  }

  lemma OneEventBytes(which: Stream, base: map<int, File>, e: Event, a: nat, b: nat)
    requires Stream.Out.Fd() in base && Stream.Err.Fd() in base
    requires base[Stream.Out.Fd()] == WriteEnd(a) && base[Stream.Err.Fd()] == WriteEnd(b)
    ensures multiset(WrittenBy(e)) ==
            multiset(CapturedBy(which, e)) + multiset(SentBy(which, base, e, a)) +
            if a == b then multiset{} else multiset(SentBy(which, base, e, b))
  {
  }

  /** Before End, every byte written is in the captured text or on one device; a and b are
      the devices of stdout and of stderr, which may be the same. */
  lemma {:induction false} EventBytes(which: Stream, base: map<int, File>, events: seq<Event>, a: nat, b: nat)
    requires Stream.Out.Fd() in base && Stream.Err.Fd() in base
    requires base[Stream.Out.Fd()] == WriteEnd(a) && base[Stream.Err.Fd()] == WriteEnd(b)
    ensures multiset(Written(events)) ==
            multiset(Captured(which, events)) + multiset(Sent(which, base, events, a)) +
            if a == b then multiset{} else multiset(Sent(which, base, events, b))
  {
    hide WrittenBy, CapturedBy, SentBy;
    if events != [] {
      EventBytes(which, base, events[..|events| - 1], a, b);
      OneEventBytes(which, base, events[|events| - 1], a, b);
    }
  }

  /** After End the devices have received every byte written exactly once, whether stdout
      and stderr are two devices or one. */
  lemma BytesConserved(which: Stream, base: map<int, File>, events: seq<Event>, a: nat, b: nat)
    requires Stream.Out.Fd() in base && Stream.Err.Fd() in base
    requires base[Stream.Out.Fd()] == WriteEnd(a) && base[Stream.Err.Fd()] == WriteEnd(b)
    ensures multiset(Left(which, base, events, a)) +
            (if a == b then multiset{} else multiset(Left(which, base, events, b))) == multiset(Written(events))
  {
    EventBytes(which, base, events, a, b);
  }

  /** A captured stderr with a device of its own leaves there only what was written past the
      capture: End's copy of the text goes to stdout's device. */
  lemma {:induction false} StderrReceivesOnlyPast(base: map<int, File>, events: seq<Event>, b: nat)
    requires Stream.Out.Fd() in base && Stream.Err.Fd() in base
    requires base[Stream.Out.Fd()] != WriteEnd(b) && base[Stream.Err.Fd()] == WriteEnd(b)
    ensures Left(Stream.Err, base, events, b) == PastText(Stream.Err, events)
  {
    if events != [] {
      StderrReceivesOnlyPast(base, events[..|events| - 1], b);
    }
  }

  function PastText(s: Stream, events: seq<Event>): string {
    if events == [] then ""
    else
      var e := events[|events| - 1];
      PastText(s, events[..|events| - 1]) + if e.Past? && e.s == s then e.msg else ""
  }
}
