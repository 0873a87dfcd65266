/** Uploading an image: a row in a transaction and a file beside it, with a failure or
    a crash possible at every step. Uploads come one after the other. */
module ImageUpload {
  import opened Options

  type Content = seq<int>

  // ---------- paths ----------

  datatype Path = Path(absolute: bool, parts: seq<string>)

  function Joined(base: Path, p: Path): Path {
    if p.absolute then p else Path(base.absolute, base.parts + p.parts)
  }

  predicate StartsWith(p: Path, base: Path) { p.absolute == base.absolute && base.parts <= p.parts }

  /** `None` is the assertion failure on an absolute path. */
  function PrependPrefix(base: Path, p: Path): Option<Path> {
    if p.absolute then None
    else if StartsWith(p, base) then Some(p)
    else Some(Joined(base, p))
  }

  /** Cleaning up a failed write aims at the file that was being written, or, if that
      is an absolute path, stops the program instead. */
  lemma CleanUpPath(base: Path, p: Path)
    ensures PrependPrefix(base, Joined(base, p)) == if Joined(base, p).absolute then None else Some(Joined(base, p))
  {}

  /** Removing an image by its own path finds the file its creation wrote exactly when
      the path is relative and does not itself begin with a (non-empty) relative base
      directory. */
  lemma RemovePath(base: Path, p: Path)
    ensures PrependPrefix(base, p) == Some(Joined(base, p))
       <==> !p.absolute && (base.absolute || base.parts == [] || !(base.parts <= p.parts))
  {
    if base.parts == [] {
      assert base.parts + p.parts == p.parts;
    } else if !p.absolute {
      assert |Joined(base, p).parts| > |p.parts|;
    }
  }

  /** Where an image is kept: two directories named by the start of its hash. */
  function ImagePath(hash: string, extension: string): Path
    requires |hash| >= 4
  {
    Path(false, [hash[..2], hash[2..4], hash + "." + extension])
  }

  /** A relative base directory whose first part is not two characters long meets
      neither problem: cleaning up and removing aim at the file that was written. */
  lemma ConfiguredPaths(base: Path, hash: string, extension: string)
    requires !base.absolute && base.parts != [] && |base.parts[0]| != 2 && |hash| >= 4
    ensures var p := ImagePath(hash, extension);
            && !Joined(base, p).absolute
            && PrependPrefix(base, Joined(base, p)) == Some(Joined(base, p))
            && PrependPrefix(base, p) == Some(Joined(base, p))
  {
    var p := ImagePath(hash, extension);
    RemovePath(base, p);
    assert |p.parts[0]| == 2 && p.parts[0] != base.parts[0];
  }

  // ---------- the file store ----------

  type Files = map<Path, Content>

  datatype Fault = NoFault | OpenFails | WriteFails(written: nat) | WriteAndRemoveFail(written: nat)

  datatype Outcome = Done | Failed | Panicked

  /** The files after a call of `Create` that did not stop the program: all bytes, or
      nothing of the file, or part of it if removing it failed too. */
  ghost predicate CreateResult<F(!new)>(
    before: map<F, Content>, file: F, data: Content, fault: Fault, after: map<F, Content>)
  {
    match fault
    case NoFault => after == before[file := data]
    case OpenFails => after == before
    case WriteFails(_) => after == before - {file}
    case WriteAndRemoveFail(_) => exists n :: 0 <= n <= |data| && after == before[file := data[..n]]
  }

  class FsStorage {
    const base: Path
    var files: Files

    constructor (base: Path)
      ensures this.base == base && files == map[]
    {
      this.base := base;
      files := map[];
    }

    method Remove(p: Path, fails: bool) returns (outcome: Outcome)
      modifies this`files
      ensures outcome == if PrependPrefix(base, p).None? then Panicked else if fails then Failed else Done
      ensures files == if outcome.Done? then old(files) - {PrependPrefix(base, p).value} else old(files)
    {
      var path := PrependPrefix(base, p);
      if path.None? {
        return Panicked;
      }
      if fails {
        return Failed;
      }
      files := files - {path.value};
      outcome := Done;
    }

    /** Creates or empties the file, writes it piece by piece, and removes it if
        writing fails; no other file is touched. */
    method Create(p: Path, data: Content, fault: Fault) returns (outcome: Outcome)
      modifies this`files
      ensures outcome.Done? <==> fault.NoFault?
      ensures outcome.Panicked? <==> !fault.NoFault? && !fault.OpenFails? && Joined(base, p).absolute
      ensures !outcome.Panicked? ==> CreateResult(old(files), Joined(base, p), data, fault, files)
      ensures outcome.Panicked? ==>
                exists n :: 0 <= n <= |data| && files == old(files)[Joined(base, p) := data[..n]]
    {
      var fullPath := Joined(base, p);
      CleanUpPath(base, p);
      if fault.OpenFails? {
        return Failed;
      }
      files := files[fullPath := []];
      var n := 0;
      var limit := if fault.NoFault? || fault.written > |data| then |data| else fault.written;
      while n < limit
        invariant 0 <= n <= limit
        invariant files == old(files)[fullPath := data[..n]]
      {
        n := n + 1;
        files := files[fullPath := data[..n]];
      }
      if fault.NoFault? {
        assert data[..n] == data;
        return Done;
      }
      outcome := Remove(fullPath, fault.WriteAndRemoveFail?);
      if outcome.Done? {
        outcome := Failed;
      }
    }
  }

  // ---------- the protocol ----------

  /** A row of the image table: its file name, and the bytes it was made for. */
  datatype Row = Row(file: string, bytes: Content)

  datatype Phase =
    | Idle
    | Searching(user: int, bytes: Content)
    | Found(user: int, id: int)
    | RowMade(user: int, bytes: Content, id: int)
    | Writing(user: int, bytes: Content, id: int, written: nat)
    | Removing(bytes: Content)
    | Stored(user: int, bytes: Content, id: int)

  /** `rows` are the committed rows by id, `images` the committed image field of users;
      what the open transaction has done is in the phase. */
  datatype State = State(
    rows: map<int, Row>, images: map<int, int>, files: map<string, Content>, nextId: int, phase: Phase)

  datatype Step =
    | Begin(user: int, bytes: Content)
    | Find
    | OpenFile
    | Write(more: nat)
    | Flush
    | WriteFails
    | RemoveFile
    | Commit
    | Crash

  predicate Enabled(s: State, step: Step) {
    match step
    case Begin(_, _) => s.phase.Idle?
    case Find => s.phase.Searching?
    case OpenFile => s.phase.RowMade?
    case Write(more) => s.phase.Writing? && s.phase.written + more <= |s.phase.bytes|
    case Flush => s.phase.Writing? && s.phase.written == |s.phase.bytes|
    case WriteFails => s.phase.Writing?
    case RemoveFile => s.phase.Removing?
    case Commit => s.phase.Found? || s.phase.Stored?
    case Crash => true
  }

  predicate HasFile(rows: map<int, Row>, id: int, file: string) { id in rows && rows[id].file == file }

  /** File names are content hashes with an extension; `name` stands for that. A crash,
      or any error not cleaned up, ends the upload and rolls the transaction back; files
      stay as they are. */
  ghost function Next(name: Content -> string, s: State, step: Step): State
    requires Enabled(s, step)
  {
    match step
    case Begin(user, bytes) => s.(phase := Searching(user, bytes))
    case Find =>
      var Searching(user, bytes) := s.phase;
      if id :| HasFile(s.rows, id, name(bytes)) then s.(phase := Found(user, id))
      else s.(phase := RowMade(user, bytes, s.nextId), nextId := s.nextId + 1)
    case OpenFile =>
      var RowMade(user, bytes, id) := s.phase;
      s.(files := s.files[name(bytes) := []], phase := Writing(user, bytes, id, 0))
    case Write(more) =>
      var Writing(user, bytes, id, written) := s.phase;
      s.(files := s.files[name(bytes) := bytes[..written + more]], phase := Writing(user, bytes, id, written + more))
    case Flush =>
      var Writing(user, bytes, id, _) := s.phase;
      s.(phase := Stored(user, bytes, id))
    case WriteFails => s.(phase := Removing(s.phase.bytes))
    case RemoveFile => s.(files := s.files - {name(s.phase.bytes)}, phase := Idle)
    case Commit =>
      if s.phase.Found? then
        var Found(user, id) := s.phase;
        if user in s.images && s.images[user] == id then s.(phase := Idle)
        else s.(images := s.images[user := id], phase := Idle)
      else
        var Stored(user, bytes, id) := s.phase;
        s.(rows := s.rows[id := Row(name(bytes), bytes)], images := s.images[user := id], phase := Idle)
    case Crash => s.(phase := Idle)
  }

  ghost predicate Possible(name: Content -> string, s: State, steps: seq<Step>)
    decreases |steps|
  {
    steps == [] || (Enabled(s, steps[0]) && Possible(name, Next(name, s, steps[0]), steps[1..]))
  }

  ghost function After(name: Content -> string, s: State, steps: seq<Step>): State
    requires Possible(name, s, steps)
    decreases |steps|
  {
    if steps == [] then s else After(name, Next(name, s, steps[0]), steps[1..])
  }

  // ---------- what holds after every step ----------

  /** Every committed row has its file on disk with exactly its bytes. */
  ghost predicate FilesOk(name: Content -> string, s: State) {
    forall id :: id in s.rows ==>
      && s.rows[id].file == name(s.rows[id].bytes)
      && s.rows[id].file in s.files && s.files[s.rows[id].file] == s.rows[id].bytes
  }

  /** At most one row per file name. */
  ghost predicate RowsOk(s: State) {
    && (forall id :: id in s.rows ==> id < s.nextId)
    && (forall a, b :: a in s.rows && b in s.rows && s.rows[a].file == s.rows[b].file ==> a == b)
  }

  /** Users only refer to committed images. */
  ghost predicate ImagesOk(s: State) { forall u :: u in s.images ==> s.images[u] in s.rows }

  ghost predicate NoRow(s: State, file: string) { forall id :: !HasFile(s.rows, id, file) }

  ghost predicate PhaseOk(name: Content -> string, s: State) {
    match s.phase
    case Found(_, id) => id in s.rows
    case RowMade(_, bytes, id) => NoRow(s, name(bytes)) && id !in s.rows && id < s.nextId
    case Writing(_, bytes, id, written) =>
      && NoRow(s, name(bytes)) && id !in s.rows && id < s.nextId && written <= |bytes|
      && name(bytes) in s.files && s.files[name(bytes)] == bytes[..written]
    case Removing(bytes) => NoRow(s, name(bytes))
    case Stored(_, bytes, id) =>
      && NoRow(s, name(bytes)) && id !in s.rows && id < s.nextId
      && name(bytes) in s.files && s.files[name(bytes)] == bytes
    case _ => true
  }

  ghost predicate Inv(name: Content -> string, s: State) {
    FilesOk(name, s) && RowsOk(s) && ImagesOk(s) && PhaseOk(name, s)
  }

  lemma KeepsInv(name: Content -> string, s: State, step: Step)
    requires Inv(name, s) && Enabled(s, step)
    ensures Inv(name, Next(name, s, step))
  {
    hide ImagesOk;
    assert forall id :: id in s.rows ==> HasFile(s.rows, id, s.rows[id].file);
    KeepsImages(name, s, step);
    if step.Flush? {
      assert s.phase.bytes[..|s.phase.bytes|] == s.phase.bytes;
    }
  }

  lemma KeepsImages(name: Content -> string, s: State, step: Step)
    requires Inv(name, s) && Enabled(s, step)
    ensures ImagesOk(Next(name, s, step))
  {
    hide FilesOk, NoRow, RowsOk;
  }

  /** Committed rows stay as they are, and nothing but a commit adds a row or an image. */
  lemma StepPreserves(name: Content -> string, s: State, step: Step)
    requires Inv(name, s) && Enabled(s, step)
    ensures Preserved(s, Next(name, s, step))
    ensures !step.Commit? ==> Next(name, s, step).rows == s.rows && Next(name, s, step).images == s.images
  {}

  ghost predicate Preserved(s: State, s': State) {
    forall id :: id in s.rows ==> id in s'.rows && s'.rows[id] == s.rows[id]
  }

  lemma {:induction false} CrashConsistency(name: Content -> string, s: State, steps: seq<Step>)
    requires Inv(name, s) && Possible(name, s, steps)
    ensures Inv(name, After(name, s, steps)) && Preserved(s, After(name, s, steps))
    decreases |steps|
  {
    hide Inv, Next, Enabled;
    if steps != [] {
      KeepsInv(name, s, steps[0]);
      StepPreserves(name, s, steps[0]);
      CrashConsistency(name, Next(name, s, steps[0]), steps[1..]);
    }
  }

  /** The steps an upload takes where it calls `Create`, if that call meets `fault`; an
      error that is not cleaned up ends the upload. */
  function CreateSteps(data: Content, fault: Fault): seq<Step> {
    match fault
    case NoFault => [OpenFile, Write(|data|), Flush]
    case OpenFails => [Crash]
    case WriteFails(n) => [OpenFile, Write(Least(n, |data|)), Step.WriteFails, RemoveFile]
    case WriteAndRemoveFail(n) => [OpenFile, Write(Least(n, |data|)), Step.WriteFails, Crash]
  }

  function Least(a: nat, b: nat): nat { if a <= b then a else b }

  /** These steps leave the files as `Create` promises, and no row. */
  lemma CreateAsSteps(name: Content -> string, s: State, fault: Fault)
    requires s.phase.RowMade?
    ensures var steps := CreateSteps(s.phase.bytes, fault);
            && Possible(name, s, steps)
            && var s' := After(name, s, steps);
            && CreateResult(s.files, name(s.phase.bytes), s.phase.bytes, fault, s'.files)
            && s'.rows == s.rows && s'.images == s.images
            && s'.phase == if fault.NoFault? then Stored(s.phase.user, s.phase.bytes, s.phase.id) else Idle
  {
    var bytes := s.phase.bytes;
    var started := Next(name, s, OpenFile);
    match fault {
      case NoFault =>
        var full := Next(name, started, Write(|bytes|));
        assert bytes[..0 + |bytes|] == bytes;
        OneMore(name, full, Flush, []);
        OneMore(name, started, Write(|bytes|), [Flush]);
        OneMore(name, s, OpenFile, [Write(|bytes|), Flush]);
      case OpenFails =>
        OneMore(name, s, Crash, []);
      case WriteFails(n) =>
        FailAfter(name, s, Least(n, |bytes|), RemoveFile);
      case WriteAndRemoveFail(n) =>
        FailAfter(name, s, Least(n, |bytes|), Crash);
    }
  }

  /** Opening, writing `n` bytes and failing, and then the last step. */
  lemma FailAfter(name: Content -> string, s: State, n: nat, last: Step)
    requires s.phase.RowMade? && n <= |s.phase.bytes| && last in [RemoveFile, Crash]
    ensures var steps := [OpenFile, Write(n), Step.WriteFails, last];
            var bytes := s.phase.bytes;
            && Possible(name, s, steps)
            && var s' := After(name, s, steps);
            && s'.rows == s.rows && s'.images == s.images && s'.phase == Idle
            && s'.files == if last.RemoveFile? then s.files - {name(bytes)} else s.files[name(bytes) := bytes[..n]]
  {
    var started := Next(name, s, OpenFile);
    var part := Next(name, started, Write(n));
    var broken := Next(name, part, Step.WriteFails);
    OneMore(name, broken, last, []);
    OneMore(name, part, Step.WriteFails, [last]);
    OneMore(name, started, Write(n), [Step.WriteFails, last]);
    OneMore(name, s, OpenFile, [Write(n), Step.WriteFails, last]);
  }

  lemma OneMore(name: Content -> string, s: State, step: Step, steps: seq<Step>)
    requires Enabled(s, step) && Possible(name, Next(name, s, step), steps)
    ensures Possible(name, s, [step] + steps)
    ensures After(name, s, [step] + steps) == After(name, Next(name, s, step), steps)
  {
    assert ([step] + steps)[1..] == steps;
  }

  const START := State(map[], map[], map[], 0, Idle)

  // ---------- main results ----------

  /** After any run of uploads, with failures and crashes at any step, every committed
      row has its file with exactly its bytes, no file name has two rows, and every
      user's image is committed. */
  lemma UploadsAreConsistent(name: Content -> string, steps: seq<Step>)
    requires Possible(name, START, steps)
    ensures var s := After(name, START, steps);
            FilesOk(name, s) && RowsOk(s) && ImagesOk(s)
  {
    hide After, Possible;
    CrashConsistency(name, START, steps);
  }

  /** No step, the clean-up of a failed write included, touches the file of a row that
      was committed before. */
  lemma CommittedFilesStay(name: Content -> string, before: seq<Step>, more: seq<Step>, id: int)
    requires Possible(name, START, before) && Possible(name, After(name, START, before), more)
    requires id in After(name, START, before).rows
    ensures var s := After(name, START, before);
            var s' := After(name, s, more);
            var file := s.rows[id].file;
            file in s.files && file in s'.files && s'.files[file] == s.files[file] == s.rows[id].bytes
  {
    hide After, Possible;
    CrashConsistency(name, START, before);
    CrashConsistency(name, After(name, START, before), more);
  }

  /** Uploading bytes that have a row reuses that row, whichever upload made it; and
      without hash collisions an upload that finds a row finds its own bytes. */
  lemma SameBytesSameRow(name: Content -> string, steps: seq<Step>, user: int, bytes: Content)
    requires Possible(name, START, steps)
    requires After(name, START, steps).phase == Searching(user, bytes)
    ensures var s := After(name, START, steps);
            && (forall id :: id in s.rows && s.rows[id].bytes == bytes ==> Next(name, s, Find).phase == Found(user, id))
            && ((forall a, b :: name(a) == name(b) ==> a == b) ==>
                  forall id :: Next(name, s, Find).phase == Found(user, id) ==>
                    id in s.rows && s.rows[id].bytes == bytes)
  {
    hide After, Possible;
    CrashConsistency(name, START, steps);
    var s := After(name, START, steps);
    assert forall id :: id in s.rows && s.rows[id].bytes == bytes ==> HasFile(s.rows, id, name(bytes));
  }

  // ---------- what an upload is for ----------

  /** The user has an image, a committed row with these bytes' name. */
  ghost predicate HasImage(name: Content -> string, s: State, user: int, bytes: Content) {
    user in s.images && HasFile(s.rows, s.images[user], name(bytes))
  }

  /** The steps of an upload that meets no error; `known` says whether the bytes have a row. */
  function UploadSteps(user: int, bytes: Content, known: bool): seq<Step> {
    [Begin(user, bytes), Find] + (if known then [Commit] else CreateSteps(bytes, NoFault) + [Commit])
  }

  lemma KnownUpload(name: Content -> string, s: State, user: int, bytes: Content, id: int)
    requires Inv(name, s) && s.phase.Idle? && HasFile(s.rows, id, name(bytes))
    ensures var steps := UploadSteps(user, bytes, true);
            && Possible(name, s, steps)
            && After(name, s, steps) == s.(images := s.images[user := id])
  {
    var s1 := Next(name, s, Begin(user, bytes));
    var s2 := Next(name, s1, Find);
    assert s2 == s1.(phase := Found(user, id));
    var s3 := Next(name, s2, Commit);
    assert s3.images == s.images[user := id];
    OneMore(name, s2, Commit, []);
    OneMore(name, s1, Find, [Commit]);
    OneMore(name, s, Begin(user, bytes), [Find, Commit]);
    assert UploadSteps(user, bytes, true) == [Begin(user, bytes)] + [Find, Commit];
    assert [Find] + [Commit] == [Find, Commit] && [Commit] + [] == [Commit];
  }

  lemma NewUpload(name: Content -> string, s: State, user: int, bytes: Content)
    requires Inv(name, s) && s.phase.Idle? && NoRow(s, name(bytes))
    ensures var steps := UploadSteps(user, bytes, false);
            && Possible(name, s, steps)
            && After(name, s, steps)
               == State(s.rows[s.nextId := Row(name(bytes), bytes)], s.images[user := s.nextId],
                        s.files[name(bytes) := bytes], s.nextId + 1, Idle)
  {
    var s1 := Next(name, s, Begin(user, bytes));
    var s2 := Next(name, s1, Find);
    assert s2 == s1.(phase := RowMade(user, bytes, s.nextId), nextId := s.nextId + 1);
    var s3 := Next(name, s2, OpenFile);
    var s4 := Next(name, s3, Write(|bytes|));
    assert bytes[..0 + |bytes|] == bytes;
    var s5 := Next(name, s4, Flush);
    OneMore(name, s5, Commit, []);
    OneMore(name, s4, Flush, [Commit]);
    OneMore(name, s3, Write(|bytes|), [Flush, Commit]);
    OneMore(name, s2, OpenFile, [Write(|bytes|), Flush, Commit]);
    OneMore(name, s1, Find, [OpenFile, Write(|bytes|), Flush, Commit]);
    OneMore(name, s, Begin(user, bytes), [Find, OpenFile, Write(|bytes|), Flush, Commit]);
    assert UploadSteps(user, bytes, false)
        == [Begin(user, bytes)] + [Find, OpenFile, Write(|bytes|), Flush, Commit];
  }

  /** An upload without errors gives the user the row of its bytes, the one there was or a
      new one with its file, and changes nobody else's image and no other row or file. */
  lemma UploadWorks(name: Content -> string, s: State, user: int, bytes: Content)
    requires Inv(name, s) && s.phase.Idle?
    ensures var known := !NoRow(s, name(bytes));
            var steps := UploadSteps(user, bytes, known);
            && Possible(name, s, steps)
            && var s' := After(name, s, steps);
            && s'.phase.Idle? && Inv(name, s') && HasImage(name, s', user, bytes)
            && (forall u :: u != user ==> (u in s'.images <==> u in s.images))
            && (forall u :: u != user && u in s.images ==> s'.images[u] == s.images[u])
            && (known ==> s'.rows == s.rows && s'.files == s.files)
            && (!known ==>
                  && s'.rows == s.rows[s'.images[user] := Row(name(bytes), bytes)]
                  && s'.images[user] !in s.rows
                  && s'.files == s.files[name(bytes) := bytes])
  {
    hide Possible, After, UploadSteps;
    if id :| HasFile(s.rows, id, name(bytes)) {
      KnownUpload(name, s, user, bytes, id);
      CrashConsistency(name, s, UploadSteps(user, bytes, true));
    } else {
      NewUpload(name, s, user, bytes);
      CrashConsistency(name, s, UploadSteps(user, bytes, false));
    }
  }

  /** A commit gives the user the row found or made, and in the second case adds it. */
  lemma CommitSets(name: Content -> string, s: State)
    requires s.phase.Found? || s.phase.Stored?
    ensures var s' := Next(name, s, Commit);
            && s'.phase.Idle? && s'.files == s.files && s'.images == s.images[s.phase.user := s.phase.id]
            && s'.rows == if s.phase.Found? then s.rows
                          else s.rows[s.phase.id := Row(name(s.phase.bytes), s.phase.bytes)]
  {}
}
