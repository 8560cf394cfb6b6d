/**
 Open files and descriptors: the file table of file.c, the descriptor system calls of sysfile.c,
 pipealloc of pipe.c, and the descriptor loops of fork and exit in proc.c.

 Between system calls the reference count of a file is the number of descriptor slots, over all
 processes, that name it; and an end of a pipe is open exactly while a file stands for it.
 */
module Files {

  import opened Params
  import opened Pipe

  datatype Kind = NoKind | PipeEnd(pipe: nat, writable: bool) | OnDisk

  datatype File = File(ref: nat, kind: Kind)

  /** The file table, every pipe ever made, and the descriptor slots of all processes. */
  datatype State = State(files: seq<File>, pipes: seq<Ends>, slots: seq<Option<nat>>)

  const SLOTS: nat := NPROC * NOFILE

  function Slot(p: nat, fd: nat): (k: nat)
    requires p < NPROC && fd < NOFILE
    ensures k < SLOTS
  {
    NOFILE * p + fd
  }

  /** fd is the lowest free descriptor of process p. */
  predicate Lowest(slots: seq<Option<nat>>, p: nat, fd: int)
    requires p < NPROC && |slots| == SLOTS
  {
    0 <= fd < NOFILE && slots[Slot(p, fd)] == None && forall i :: 0 <= i < fd ==> slots[Slot(p, i)].Some?
  }

  predicate EndOpen(e: Ends, writable: bool) {
    if writable then e.writeopen else e.readopen
  }

  // ---- The invariant ----

  /** References to f held by descriptor slots. */
  ghost function Names(slots: seq<Option<nat>>, f: nat): nat {
    multiset(slots)[Some(f)]
  }

  ghost predicate FileAt(files: seq<File>, pipes: seq<Ends>, f: nat)
    requires f < |files|
  {
    && (files[f].ref == 0 ==> files[f].kind.NoKind?)
    && (files[f].kind.PipeEnd? ==> files[f].kind.pipe < |pipes| && EndOpen(pipes[files[f].kind.pipe], files[f].kind.writable))
  }

  /** Some file stands for this end of pipe k. */
  ghost predicate HasFile(files: seq<File>, k: nat, writable: bool) {
    exists f :: 0 <= f < |files| && files[f].kind == PipeEnd(k, writable)
  }

  ghost predicate PipeAt(files: seq<File>, pipes: seq<Ends>, k: nat)
    requires k < |pipes|
  {
    && EndsValid(pipes[k])
    && (pipes[k].readopen ==> HasFile(files, k, false))
    && (pipes[k].writeopen ==> HasFile(files, k, true))
  }

  ghost predicate EndsApart(files: seq<File>) {
    forall f, g :: 0 <= f < g < |files| && files[f].kind.PipeEnd? ==> files[f].kind != files[g].kind
  }

  /** Open pipe ends and files that stand for them correspond one to one. */
  ghost predicate Matched(files: seq<File>, pipes: seq<Ends>) {
    && (forall f {:trigger FileAt(files, pipes, f)} :: 0 <= f < |files| ==> FileAt(files, pipes, f))
    && (forall k {:trigger PipeAt(files, pipes, k)} :: 0 <= k < |pipes| ==> PipeAt(files, pipes, k))
    && EndsApart(files)
  }

  ghost predicate RefAt(files: seq<File>, slots: seq<Option<nat>>, f: nat)
    requires f < |files|
  {
    files[f].ref == Names(slots, f)
  }

  ghost predicate Counted(files: seq<File>, slots: seq<Option<nat>>) {
    && |files| == NFILE && |slots| == SLOTS
    && (forall k :: 0 <= k < SLOTS && slots[k].Some? ==> slots[k].value < NFILE)
    && (forall f {:trigger RefAt(files, slots, f)} :: 0 <= f < NFILE ==> RefAt(files, slots, f))
  }

  ghost predicate Inv(s: State) {
    Counted(s.files, s.slots) && Matched(s.files, s.pipes)
  }

  /** Not two files, or not two descriptors of p, are free. */
  ghost predicate FewFiles(files: seq<File>) {
    forall f, g :: 0 <= f < g < |files| ==> files[f].ref > 0 || files[g].ref > 0
  }

  ghost predicate FewSlots(slots: seq<Option<nat>>, p: nat)
    requires p < NPROC && |slots| == SLOTS
  {
    forall i, j :: 0 <= i < j < NOFILE ==> slots[Slot(p, i)].Some? || slots[Slot(p, j)].Some?
  }

  // ---- What the file operations compute ----

  function Duped(files: seq<File>, f: nat): seq<File>
    requires f < |files|
  {
    files[f := files[f].(ref := files[f].ref + 1)]
  }

  function ClosedFiles(files: seq<File>, f: nat): seq<File>
    requires f < |files| && files[f].ref > 0
  {
    files[f := if files[f].ref > 1 then files[f].(ref := files[f].ref - 1) else File(0, NoKind)]
  }

  /** The last close of a pipe's file closes that end. */
  function ClosedPipes(files: seq<File>, pipes: seq<Ends>, f: nat): seq<Ends>
    requires f < |files| && files[f].ref > 0
    requires files[f].kind.PipeEnd? ==> files[f].kind.pipe < |pipes|
    requires files[f].kind.PipeEnd? ==>
               EndsValid(pipes[files[f].kind.pipe]) && EndOpen(pipes[files[f].kind.pipe], files[f].kind.writable)
  {
    if files[f].ref == 1 && files[f].kind.PipeEnd?
    then pipes[files[f].kind.pipe := CloseEnd(pipes[files[f].kind.pipe], files[f].kind.writable)]
    else pipes
  }

  // ---- Lemmas ----

  lemma NamesUpdate(slots: seq<Option<nat>>, k: nat, v: Option<nat>, f: nat)
    requires k < |slots|
    ensures Names(slots[k := v], f) + (if slots[k] == Some(f) then 1 else 0) == Names(slots, f) + if v == Some(f) then 1 else 0
  {
    assert slots[k] in multiset(slots);
    assert multiset(slots[k := v]) == multiset(slots) - multiset{slots[k]} + multiset{v};
  }

  lemma Named(slots: seq<Option<nat>>, k: nat)
    requires k < |slots| && slots[k].Some?
    ensures Names(slots, slots[k].value) >= 1
  {
    assert slots[k] in multiset(slots);
  }

  /** Two slots that name one file hold two references. */
  lemma NamedTwice(slots: seq<Option<nat>>, j: nat, k: nat)
    requires j < |slots| && k < |slots| && j != k && slots[j].Some? && slots[j] == slots[k]
    ensures Names(slots, slots[j].value) >= 2
  {
    var f := slots[j].value;
    NamesUpdate(slots, j, None, f);
    Named(slots[j := None], k);
  }

  /** A slot set and a reference taken or dropped at the same time leave the counts right. */
  lemma CountedChange(files: seq<File>, slots: seq<Option<nat>>, more: seq<File>, k: nat, v: Option<nat>)
    requires Counted(files, slots) && k < SLOTS && |more| == NFILE
    requires v.Some? ==> v.value < NFILE
    requires forall f :: 0 <= f < NFILE ==>
               more[f].ref + (if slots[k] == Some(f) then 1 else 0) == files[f].ref + if v == Some(f) then 1 else 0
    ensures Counted(more, slots[k := v])
  {
    var after := slots[k := v];
    forall f {:trigger RefAt(more, after, f)} | 0 <= f < NFILE ensures RefAt(more, after, f) {
      assert RefAt(files, slots, f);
      NamesUpdate(slots, k, v, f);
    }
  }

  /** Changing a count without letting the file go leaves the pipes alone. */
  lemma MatchedRef(files: seq<File>, pipes: seq<Ends>, f: nat, n: nat)
    requires Matched(files, pipes) && f < |files| && (n == 0 ==> files[f].kind.NoKind?)
    ensures Matched(files[f := files[f].(ref := n)], pipes)
  {
    var more := files[f := files[f].(ref := n)];
    forall g {:trigger FileAt(more, pipes, g)} | 0 <= g < |more| ensures FileAt(more, pipes, g) {
      assert FileAt(files, pipes, g);
    }
    forall k {:trigger PipeAt(more, pipes, k)} | 0 <= k < |pipes| ensures PipeAt(more, pipes, k) {
      assert PipeAt(files, pipes, k);
      HasFileKept(files, more, k, false);
      HasFileKept(files, more, k, true);
    }
  }

  lemma HasFileKept(files: seq<File>, more: seq<File>, k: nat, writable: bool)
    requires |more| == |files|
    requires forall f :: 0 <= f < |files| && files[f].kind == PipeEnd(k, writable) ==> more[f].kind == files[f].kind
    ensures HasFile(files, k, writable) ==> HasFile(more, k, writable)
  {
    if HasFile(files, k, writable) {
      var f :| 0 <= f < |files| && files[f].kind == PipeEnd(k, writable);
      assert more[f].kind == PipeEnd(k, writable);
    }
  }

  /** fileclose keeps files and pipe ends matched. */
  lemma MatchedClose(files: seq<File>, pipes: seq<Ends>, f: nat)
    requires Matched(files, pipes) && f < |files| && files[f].ref > 0
    ensures FileAt(files, pipes, f)
    ensures files[f].kind.PipeEnd? ==> EndsValid(pipes[files[f].kind.pipe])
    ensures Matched(ClosedFiles(files, f), ClosedPipes(files, pipes, f))
  {
    assert FileAt(files, pipes, f);
    if files[f].kind.PipeEnd? { assert PipeAt(files, pipes, files[f].kind.pipe); }
    if files[f].ref > 1 {
      MatchedRef(files, pipes, f, files[f].ref - 1);
    } else {
      MatchedLast(files, pipes, f);
    }
  }

  lemma MatchedLast(files: seq<File>, pipes: seq<Ends>, f: nat)
    requires Matched(files, pipes) && f < |files| && files[f].ref == 1
    requires FileAt(files, pipes, f) && (files[f].kind.PipeEnd? ==> PipeAt(files, pipes, files[f].kind.pipe))
    ensures Matched(ClosedFiles(files, f), ClosedPipes(files, pipes, f))
  {
    var more := ClosedFiles(files, f);
    var ends := ClosedPipes(files, pipes, f);
    forall g {:trigger FileAt(more, ends, g)} | 0 <= g < |more| ensures FileAt(more, ends, g) {
      assert FileAt(files, pipes, g);
    }
    forall k {:trigger PipeAt(more, ends, k)} | 0 <= k < |ends| ensures PipeAt(more, ends, k) {
      assert PipeAt(files, pipes, k);
      if files[f].kind != PipeEnd(k, false) { HasFileKept(files, more, k, false); }
      if files[f].kind != PipeEnd(k, true) { HasFileKept(files, more, k, true); }
    }
  }

  /** pipealloc: two files taken from the table stand for the ends of a new pipe. */
  lemma MatchedPipe(files: seq<File>, pipes: seq<Ends>, f0: nat, f1: nat)
    requires Matched(files, pipes) && f0 < |files| && f1 < |files| && f0 != f1
    requires files[f0].kind.NoKind? && files[f1].kind.NoKind?
    ensures Matched(files[f0 := File(1, PipeEnd(|pipes|, false))][f1 := File(1, PipeEnd(|pipes|, true))],
                    pipes + [Ends(true, true, 0)])
  {
    var n := |pipes|;
    var more := files[f0 := File(1, PipeEnd(n, false))][f1 := File(1, PipeEnd(n, true))];
    var ends := pipes + [Ends(true, true, 0)];
    assert more[f0].kind == PipeEnd(n, false) && more[f1].kind == PipeEnd(n, true);
    forall g {:trigger FileAt(more, ends, g)} | 0 <= g < |more| ensures FileAt(more, ends, g) {
      assert FileAt(files, pipes, g);
    }
    forall k {:trigger PipeAt(more, ends, k)} | 0 <= k < |ends| ensures PipeAt(more, ends, k) {
      if k < n {
        assert PipeAt(files, pipes, k);
        HasFileKept(files, more, k, false);
        HasFileKept(files, more, k, true);
      }
    }
    forall f, g | 0 <= f < g < |more| && more[f].kind.PipeEnd? ensures more[f].kind != more[g].kind {
      assert FileAt(files, pipes, f) && FileAt(files, pipes, g);
    }
  }

  /** A pipe's page is given back once, and exactly when no descriptor of any process names either of its ends. */
  lemma PipePage(s: State, k: nat)
    requires Inv(s) && k < |s.pipes|
    ensures s.pipes[k].frees <= 1
    ensures s.pipes[k].frees == 0 <==> exists j :: 0 <= j < SLOTS && NamesPipe(s, s.slots[j], k)
  {
    assert PipeAt(s.files, s.pipes, k);
    forall j | 0 <= j < SLOTS && NamesPipe(s, s.slots[j], k) ensures s.pipes[k].frees == 0 {
      assert FileAt(s.files, s.pipes, s.slots[j].value);
    }
    if s.pipes[k].frees == 0 {
      var f :| 0 <= f < NFILE && s.files[f].kind.PipeEnd? && s.files[f].kind.pipe == k;
      assert FileAt(s.files, s.pipes, f) && RefAt(s.files, s.slots, f);
      assert Some(f) in multiset(s.slots);
      var j :| 0 <= j < |s.slots| && s.slots[j] == Some(f);
      assert NamesPipe(s, s.slots[j], k);
    }
  }

  predicate NamesPipe(s: State, v: Option<nat>, k: nat) {
    v.Some? && v.value < |s.files| && s.files[v.value].kind.PipeEnd? && s.files[v.value].kind.pipe == k
  }

  // ---- The system calls ----

  class FileTable {
    var files: seq<File>
    var pipes: seq<Ends>
    var slots: seq<Option<nat>>

    ghost function S(): State
      reads this
    {
      State(files, pipes, slots)
    }

    ghost predicate Valid()
      reads this
    {
      Inv(S())
    }

    constructor ()
      ensures Valid() && pipes == []
      ensures forall k :: 0 <= k < SLOTS ==> slots[k] == None
    {
      files := seq(NFILE, _ => File(0, NoKind));
      pipes := [];
      slots := seq(SLOTS, _ => None);
      new;
      forall f {:trigger RefAt(files, slots, f)} | 0 <= f < NFILE ensures RefAt(files, slots, f) {
        assert Some(f) !in slots;
      }
    }

    /** filealloc: the first free file. */
    method FileAlloc() returns (r: Option<nat>)
      requires |files| == NFILE
      modifies this`files
      ensures r == None ==> files == old(files) && forall f :: 0 <= f < NFILE ==> files[f].ref > 0
      ensures r.Some? ==> r.value < NFILE && old(files)[r.value].ref == 0 && files == Duped(old(files), r.value)
      ensures r.Some? ==> forall g :: 0 <= g < r.value ==> old(files)[g].ref > 0
    {
      for f := 0 to NFILE
        invariant files == old(files)
        invariant forall g :: 0 <= g < f ==> files[g].ref > 0
      {
        if files[f].ref == 0 {
          files := files[f := files[f].(ref := 1)];
          return Some(f);
        }
      }
      return None;
    }

    /** filedup; the panic is for a free file. */
    method FileDup(f: nat)
      requires f < |files| && files[f].ref >= 1
      modifies this`files
      ensures files == Duped(old(files), f)
    {
      files := files[f := files[f].(ref := files[f].ref + 1)];
    }

    /** fileclose; the panic is for a free file. */
    method FileClose(f: nat)
      requires f < |files| && files[f].ref >= 1 && Matched(files, pipes)
      modifies this`files, this`pipes
      ensures Matched(files, pipes) && |files| == |old(files)|
      ensures FileAt(old(files), old(pipes), f) && (old(files)[f].kind.PipeEnd? ==> EndsValid(old(pipes)[old(files)[f].kind.pipe]))
      ensures files == ClosedFiles(old(files), f) && pipes == ClosedPipes(old(files), old(pipes), f)
    {
      MatchedClose(files, pipes, f);
      var ff := files[f];
      files := files[f := ff.(ref := ff.ref - 1)];
      if ff.ref - 1 > 0 {
        return;
      }
      files := files[f := File(0, NoKind)];
      assert files == ClosedFiles(old(files), f);
      if ff.kind.PipeEnd? {
        pipes := pipes[ff.kind.pipe := CloseEnd(pipes[ff.kind.pipe], ff.kind.writable)];
      }
    }

    /** fdalloc: the lowest free descriptor of p. */
    method FdAlloc(p: nat, f: nat) returns (fd: int)
      requires p < NPROC && |slots| == SLOTS
      modifies this`slots
      ensures -1 <= fd < NOFILE
      ensures fd == -1 ==> slots == old(slots) && forall i :: 0 <= i < NOFILE ==> slots[Slot(p, i)].Some?
      ensures fd >= 0 ==> Lowest(old(slots), p, fd) && slots == old(slots)[Slot(p, fd) := Some(f)]
    {
      for i := 0 to NOFILE
        invariant slots == old(slots)
        invariant forall j :: 0 <= j < i ==> slots[Slot(p, j)].Some?
      {
        if slots[Slot(p, i)] == None {
          slots := slots[Slot(p, i) := Some(f)];
          return i;
        }
      }
      return -1;
    }

    /** argfd: the file behind a descriptor number given by the user. */
    function ArgFd(p: nat, fd: int): (r: Option<nat>)
      requires p < NPROC && |slots| == SLOTS
      reads this
      ensures 0 <= fd < NOFILE ==> r == slots[Slot(p, fd)]
      ensures r.Some? ==> 0 <= fd < NOFILE
    {
      if fd < 0 || fd >= NOFILE then None else slots[Slot(p, fd)]
    }

    method SysDup(p: nat, fd: int) returns (r: int)
      requires Valid() && p < NPROC
      modifies this`files, this`slots
      ensures Valid()
      ensures r == -1 <==> old(ArgFd(p, fd)) == None || forall i :: 0 <= i < NOFILE ==> old(slots)[Slot(p, i)].Some?
      ensures r == -1 ==> S() == old(S())
      ensures r != -1 ==> Lowest(old(slots), p, r) && slots == old(slots)[Slot(p, r) := old(ArgFd(p, fd))]
    {
      var f := ArgFd(p, fd);
      if f == None {
        return -1;
      }
      Named(slots, Slot(p, fd));
      assert RefAt(files, slots, f.value);
      r := FdAlloc(p, f.value);
      if r < 0 {
        return -1;
      }
      FileDup(f.value);
      CountedChange(old(files), old(slots), files, Slot(p, r), f);
      MatchedRef(old(files), pipes, f.value, old(files)[f.value].ref + 1);
    }

    method SysClose(p: nat, fd: int) returns (r: int)
      requires Valid() && p < NPROC
      modifies this
      ensures Valid()
      ensures r == if old(ArgFd(p, fd)) == None then -1 else 0
      ensures r == -1 ==> S() == old(S())
      ensures r == 0 ==> slots == old(slots)[Slot(p, fd) := None]
    {
      var f := ArgFd(p, fd);
      if f == None {
        return -1;
      }
      Named(slots, Slot(p, fd));
      assert RefAt(files, slots, f.value);
      slots := slots[Slot(p, fd) := None];
      FileClose(f.value);
      CountedChange(old(files), old(slots), files, Slot(p, fd), None);
      return 0;
    }

    /** dup2. When both descriptors already name one file, it is never let go on the way. */
    method SysDup2(p: nat, oldfd: int, newfd: int) returns (r: int)
      requires Valid() && p < NPROC
      modifies this
      ensures Valid()
      ensures r == if old(ArgFd(p, oldfd)) == None || newfd < 0 || newfd >= NOFILE then -1 else newfd
      ensures r == -1 || oldfd == newfd ==> S() == old(S())
      ensures r != -1 ==> slots == old(slots)[Slot(p, newfd) := old(ArgFd(p, oldfd))]
      ensures r != -1 && old(ArgFd(p, oldfd) == ArgFd(p, newfd)) ==> S() == old(S())
    {
      var oldf := ArgFd(p, oldfd);
      if oldf == None {
        return -1;
      }
      Named(slots, Slot(p, oldfd));
      assert RefAt(files, slots, oldf.value);
      if oldfd == newfd {
        return newfd;
      }
      if oldfd < 0 || oldfd >= NOFILE || newfd < 0 || newfd >= NOFILE {
        return -1;
      }
      var k := Slot(p, newfd);
      var newf := slots[k];
      if newf.Some? {
        Named(slots, k);
        assert RefAt(files, slots, newf.value);
        if newf == oldf {
          NamedTwice(slots, Slot(p, oldfd), k);
        }
        FileClose(newf.value);
      }
      ghost var mid := files;
      slots := slots[k := oldf];
      FileDup(oldf.value);
      MatchedRef(mid, pipes, oldf.value, mid[oldf.value].ref + 1);
      CountedChange(old(files), old(slots), files, k, oldf);
      return newfd;
    }

    /** The descriptor part of open, once the path has been resolved. */
    method SysOpen(p: nat) returns (fd: int)
      requires Valid() && p < NPROC
      modifies this
      ensures Valid()
      ensures fd == -1 ==> S() == old(S())
      ensures fd == -1 <==>
                (forall f :: 0 <= f < NFILE ==> old(files)[f].ref > 0) || (forall i :: 0 <= i < NOFILE ==> old(slots)[Slot(p, i)].Some?)
      ensures fd != -1 ==>
                Lowest(old(slots), p, fd) && pipes == old(pipes)
                && exists f :: 0 <= f < NFILE && old(files)[f].ref == 0 && files == old(files)[f := File(1, OnDisk)]
                               && slots == old(slots)[Slot(p, fd) := Some(f)]
    {
      var f := FileAlloc();
      if f == None {
        return -1;
      }
      assert FileAt(old(files), pipes, f.value);
      MatchedRef(old(files), pipes, f.value, 1);
      fd := FdAlloc(p, f.value);
      if fd < 0 {
        FileClose(f.value);
        assert files == old(files);
        return -1;
      }
      ghost var mid := files;
      files := files[f.value := files[f.value].(kind := OnDisk)];
      CountedChange(old(files), old(slots), files, Slot(p, fd), f);
      MatchedDisk(mid, pipes, f.value);
    }

    /** pipealloc. `page` says whether kalloc had a page to give. */
    method PipeAlloc(page: bool) returns (r: Option<(nat, nat)>)
      requires |files| == NFILE && Matched(files, pipes)
      modifies this`files, this`pipes
      ensures Matched(files, pipes)
      ensures r == None ==> files == old(files) && pipes == old(pipes)
      ensures r == None <==> !page || FewFiles(old(files))
      ensures r.Some? ==>
                var (f0, f1) := r.value;
                && f0 < NFILE && f1 < NFILE && f0 != f1 && old(files)[f0].ref == 0 && old(files)[f1].ref == 0
                && files == old(files)[f0 := File(1, PipeEnd(|old(pipes)|, false))][f1 := File(1, PipeEnd(|old(pipes)|, true))]
                && pipes == old(pipes) + [Ends(true, true, 0)]
    {
      var f0 := FileAlloc();
      if f0 == None {
        return None;
      }
      assert FileAt(old(files), pipes, f0.value);
      MatchedRef(old(files), pipes, f0.value, 1);
      ghost var mid := files;
      var f1 := FileAlloc();
      if f1 == None {
        FileClose(f0.value);
        assert files == old(files);
        return None;
      }
      assert FileAt(mid, pipes, f1.value);
      MatchedRef(mid, pipes, f1.value, 1);
      if !page {
        FileClose(f0.value);
        FileClose(f1.value);
        assert files == old(files);
        return None;
      }
      MatchedPipe(files, pipes, f0.value, f1.value);
      files := files[f0.value := files[f0.value].(kind := PipeEnd(|pipes|, false))];
      files := files[f1.value := files[f1.value].(kind := PipeEnd(|pipes|, true))];
      pipes := pipes + [Ends(true, true, 0)];
      assert files == old(files)[f0.value := File(1, PipeEnd(|old(pipes)|, false))][f1.value := File(1, PipeEnd(|old(pipes)|, true))];
      return Some((f0.value, f1.value));
    }

    /** pipe. A failure after pipealloc closes both ends, which gives the page back. */
    method SysPipe(p: nat, page: bool) returns (r: Option<(nat, nat)>)
      requires Valid() && p < NPROC
      modifies this
      ensures Valid()
      ensures r == None ==> files == old(files) && slots == old(slots)
      ensures r == None ==> pipes == old(pipes) || pipes == old(pipes) + [Ends(false, false, 1)]
      ensures r == None <==> !page || FewFiles(old(files)) || FewSlots(old(slots), p)
      ensures r.Some? ==>
                var (fd0, fd1) := r.value;
                && fd0 < fd1 && Lowest(old(slots), p, fd0) && Lowest(old(slots)[Slot(p, fd0) := Some(0)], p, fd1)
                && slots[Slot(p, fd0)].Some? && slots[Slot(p, fd1)].Some?
                && slots == old(slots)[Slot(p, fd0) := slots[Slot(p, fd0)]][Slot(p, fd1) := slots[Slot(p, fd1)]]
                && files[slots[Slot(p, fd0)].value] == File(1, PipeEnd(|old(pipes)|, false))
                && files[slots[Slot(p, fd1)].value] == File(1, PipeEnd(|old(pipes)|, true))
                && pipes == old(pipes) + [Ends(true, true, 0)]
    {
      var ends := PipeAlloc(page);
      if ends == None {
        return None;
      }
      var (rf, wf) := ends.value;
      assert FileAt(old(files), old(pipes), rf) && FileAt(old(files), old(pipes), wf);
      var fd0 := FdAlloc(p, rf);
      if fd0 < 0 {
        CloseBoth(rf, wf, old(files), old(pipes));
        return None;
      }
      ghost var mid := slots;
      var fd1 := FdAlloc(p, wf);
      if fd1 < 0 {
        slots := slots[Slot(p, fd0) := None];
        assert slots == old(slots);
        CloseBoth(rf, wf, old(files), old(pipes));
        return None;
      }
      ghost var one := files[wf := old(files)[wf]];
      CountedChange(old(files), old(slots), one, Slot(p, fd0), Some(rf));
      CountedChange(one, mid, files, Slot(p, fd1), Some(wf));
      return Some((fd0, fd1));
    }

    /** Undo pipealloc: both files go back, and the second close gives the page back. */
    method CloseBoth(rf: nat, wf: nat, ghost files0: seq<File>, ghost pipes0: seq<Ends>)
      requires |files| == |files0| && rf < |files| && wf < |files| && rf != wf && Matched(files, pipes)
      requires files0[rf] == File(0, NoKind) && files0[wf] == File(0, NoKind)
      requires files == files0[rf := File(1, PipeEnd(|pipes0|, false))][wf := File(1, PipeEnd(|pipes0|, true))]
      requires pipes == pipes0 + [Ends(true, true, 0)]
      modifies this`files, this`pipes
      ensures files == files0 && pipes == pipes0 + [Ends(false, false, 1)] && Matched(files, pipes)
    {
      FileClose(rf);
      FileClose(wf);
      assert files == files0;
    }

    /** fork's loop: the child, which has no descriptors yet, gets all of the parent's. */
    method ForkFiles(p: nat, c: nat)
      requires Valid() && p < NPROC && c < NPROC && p != c
      requires forall i :: 0 <= i < NOFILE ==> slots[Slot(c, i)] == None
      modifies this`files, this`slots
      ensures Valid()
      ensures forall i :: 0 <= i < NOFILE ==> slots[Slot(c, i)] == slots[Slot(p, i)]
      ensures forall k :: 0 <= k < SLOTS && !(NOFILE * c <= k < NOFILE * c + NOFILE) ==> slots[k] == old(slots)[k]
    {
      for i := 0 to NOFILE
        invariant Valid()
        invariant forall j :: 0 <= j < i ==> slots[Slot(c, j)] == slots[Slot(p, j)]
        invariant forall j :: i <= j < NOFILE ==> slots[Slot(c, j)] == None
        invariant forall k :: 0 <= k < SLOTS && !(NOFILE * c <= k < NOFILE * c + NOFILE) ==> slots[k] == old(slots)[k]
      {
        if slots[Slot(p, i)].Some? {
          CopySlot(Slot(p, i), Slot(c, i));
        }
      }
    }

    method CopySlot(from: nat, to: nat)
      requires Valid() && from < SLOTS && to < SLOTS && slots[from].Some? && slots[to] == None
      modifies this`files, this`slots
      ensures Valid() && slots == old(slots)[to := old(slots)[from]]
    {
      var f := slots[from].value;
      Named(slots, from);
      assert RefAt(files, slots, f);
      FileDup(f);
      slots := slots[to := Some(f)];
      CountedChange(old(files), old(slots), files, to, Some(f));
      MatchedRef(old(files), pipes, f, old(files)[f].ref + 1);
    }

    /** exit's loop: every descriptor of p is closed and no other is touched. */
    method ExitFiles(p: nat)
      requires Valid() && p < NPROC
      modifies this
      ensures Valid()
      ensures forall i :: 0 <= i < NOFILE ==> slots[Slot(p, i)] == None
      ensures forall k :: 0 <= k < SLOTS && !(NOFILE * p <= k < NOFILE * p + NOFILE) ==> slots[k] == old(slots)[k]
    {
      for i := 0 to NOFILE
        invariant Valid()
        invariant forall j :: 0 <= j < i ==> slots[Slot(p, j)] == None
        invariant forall k :: 0 <= k < SLOTS && !(NOFILE * p <= k < NOFILE * p + NOFILE) ==> slots[k] == old(slots)[k]
      {
        if slots[Slot(p, i)].Some? {
          DropSlot(Slot(p, i));
        }
      }
    }

    method DropSlot(k: nat)
      requires Valid() && k < SLOTS && slots[k].Some?
      modifies this
      ensures Valid() && slots == old(slots)[k := None]
    {
      Named(slots, k);
      assert RefAt(files, slots, slots[k].value);
      FileClose(slots[k].value);
      slots := slots[k := None];
      CountedChange(old(files), old(slots), files, k, None);
    }
  }

  lemma MatchedDisk(files: seq<File>, pipes: seq<Ends>, f: nat)
    requires Matched(files, pipes) && f < |files| && files[f].ref > 0 && files[f].kind.NoKind?
    ensures Matched(files[f := files[f].(kind := OnDisk)], pipes)
  {
    var more := files[f := files[f].(kind := OnDisk)];
    forall g {:trigger FileAt(more, pipes, g)} | 0 <= g < |more| ensures FileAt(more, pipes, g) {
      assert FileAt(files, pipes, g);
    }
    forall k {:trigger PipeAt(more, pipes, k)} | 0 <= k < |pipes| ensures PipeAt(more, pipes, k) {
      assert PipeAt(files, pipes, k);
      HasFileKept(files, more, k, false);
      HasFileKept(files, more, k, true);
    }
  }
}
