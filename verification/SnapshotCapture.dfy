/**
 Captures: the preimage of every path a command may change, what the command left there, and the way back.
 */
module SnapshotCapture {
  import opened Text
  import opened FileTree
  import SnapshotRing

  type Kept = SnapshotRing.Kept

  // ----- Records -----

  /** What stood at a path before the command; for a file its checksum, the name of the capture's own copy, its mode. */
  datatype Preimage =
    | WasAbsent
    | WasLink(target: string)
    | WasFile(sha: string, blob: nat, mode: nat)

  /** `after` is Empty until the capture is sealed. */
  datatype Entry = Entry(path: string, before: Preimage, after: State)

  datatype Error =
    | InvalidId
    | NotFound
    | CannotRead(path: string)
    | TooLarge(path: string)
    | CannotRestore(path: string)

  predicate IsHexDigit(c: char) {
    '0' <= c <= '9' || 'a' <= c <= 'f'
  }

  predicate ValidId(id: string) {
    id != "" && forall i :: 0 <= i < |id| ==> IsHexDigit(id[i])
  }

  /** Identifiers name files, so they hold nothing but hexadecimal digits. */
  lemma {:induction false} IdsAreHexadecimal(id: string)
    ensures ValidId(id) <==> |id| > 0 && forall i :: 0 <= i < |id| ==>
              id[i] in {'0', '1', '2', '3', '4', '5', '6', '7', '8', '9', 'a', 'b', 'c', 'd', 'e', 'f'}
  {
    forall i | 0 <= i < |id|
      ensures IsHexDigit(id[i]) <==> id[i] in {'0', '1', '2', '3', '4', '5', '6', '7', '8', '9', 'a', 'b', 'c', 'd', 'e', 'f'}
    {
    }
  }

  // ----- Capturing -----

  function PreimageOf(world: World, files: Files, path: string, index: nat): Preimage
    requires Readable(files, path)
  {
    if path !in files then WasAbsent
    else
      match files[path]
      case File(content, mode) => WasFile(world.hash(content), index, mode)
      case Link(target) => WasLink(target)
  }

  /** The bytes a path adds to a capture. */
  function SizeOf(files: Files, path: string): nat {
    if path in files && files[path].File? then |files[path].content| else 0
  }

  /** All bytes that a surface holds. */
  ghost function Contents(files: Files, paths: seq<string>): string {
    if |paths| == 0 then ""
    else
      Contents(files, paths[..|paths| - 1])
      + match Lookup(files, paths[|paths| - 1])
        case Some(File(content, _)) => content
        case _ => ""
  }

  predicate AllReadable(files: Files, paths: seq<string>) {
    forall i :: 0 <= i < |paths| ==> Readable(files, paths[i])
  }

  /** One entry for every path, in order. */
  function Entries(world: World, files: Files, paths: seq<string>): (entries: seq<Entry>)
    requires AllReadable(files, paths)
    ensures |entries| == |paths|
  {
    seq(|paths|, i requires 0 <= i < |paths| && AllReadable(files, paths) =>
      Entry(paths[i], PreimageOf(world, files, paths[i], i), Empty))
  }

  /** The capture's own copies, by index. */
  function Blobs(files: Files, paths: seq<string>): map<nat, string> {
    map i: nat | 0 <= i < |paths| && paths[i] in files && files[paths[i]].File? :: files[paths[i]].content
  }

  /** The first path at which the capture stops: unreadable, or more bytes than are left. */
  function FirstFailure(files: Files, paths: seq<string>, remaining: nat): Option<Error> {
    if |paths| == 0 then None
    else if !Readable(files, paths[0]) then Some(CannotRead(paths[0]))
    else if SizeOf(files, paths[0]) > remaining then Some(TooLarge(paths[0]))
    else FirstFailure(files, paths[1..], remaining - SizeOf(files, paths[0]))
  }

  lemma {:induction false} FailsBehind(files: Files, paths: seq<string>, k: nat, ceiling: nat)
    requires k <= |paths| && AllReadable(files, paths[..k]) && |Contents(files, paths[..k])| <= ceiling
    ensures FirstFailure(files, paths, ceiling) == FirstFailure(files, paths[k..], ceiling - |Contents(files, paths[..k])|)
  {
    if k == 0 {
      assert paths[..0] == [] && paths[0..] == paths;
    } else {
      TakeMore(paths, k - 1);
      assert paths[..k][..k - 1] == paths[..k - 1] && paths[..k][k - 1] == paths[k - 1];
      FailsBehind(files, paths, k - 1, ceiling);
      FailureStep(files, paths, k - 1, ceiling - |Contents(files, paths[..k - 1])|);
    }
  }

  /** The path at which a capture fails: the first that cannot be read, or with which there are more bytes than allowed. */
  lemma {:induction false} FailsAt(files: Files, paths: seq<string>, k: nat, ceiling: nat)
    requires k < |paths| && AllReadable(files, paths[..k]) && |Contents(files, paths[..k])| <= ceiling
    ensures !Readable(files, paths[k]) ==> FirstFailure(files, paths, ceiling) == Some(CannotRead(paths[k]))
    ensures Readable(files, paths[k]) && |Contents(files, paths[..k + 1])| > ceiling ==>
              FirstFailure(files, paths, ceiling) == Some(TooLarge(paths[k]))
  {
    FailsBehind(files, paths, k, ceiling);
    FailureStep(files, paths, k, ceiling - |Contents(files, paths[..k])|);
    assert paths[..k + 1][..k] == paths[..k];
  }

  /** A capture fails exactly when a path is unreadable or the files together exceed the ceiling. */
  lemma {:induction false} FailsExactly(files: Files, paths: seq<string>, ceiling: nat)
    ensures FirstFailure(files, paths, ceiling).None? <==> AllReadable(files, paths) && |Contents(files, paths)| <= ceiling
  {
    FailsIfAny(files, paths, |paths|, ceiling);
    assert paths[..|paths|] == paths;
  }

  lemma {:induction false} FailsIfAny(files: Files, paths: seq<string>, k: nat, ceiling: nat)
    requires k <= |paths|
    ensures !(AllReadable(files, paths[..k]) && |Contents(files, paths[..k])| <= ceiling) ==> FirstFailure(files, paths, ceiling).Some?
    ensures k == |paths| && AllReadable(files, paths) && |Contents(files, paths)| <= ceiling ==> FirstFailure(files, paths, ceiling).None?
  {
    if AllReadable(files, paths[..k]) && |Contents(files, paths[..k])| <= ceiling {
      assert k == |paths| ==> paths[..k] == paths;
      FailsBehind(files, paths, k, ceiling);
    } else if k > 0 {
      FailsIfAny(files, paths, k - 1, ceiling);
      if AllReadable(files, paths[..k - 1]) && |Contents(files, paths[..k - 1])| <= ceiling {
        FailsAt(files, paths, k - 1, ceiling);
        TakeMore(paths, k - 1);
      }
    }
  }

  lemma {:induction false} NothingCaptured(world: World, files: Files)
    ensures AllReadable(files, []) && Entries(world, files, []) == [] && Blobs(files, []) == map[]
  {
  }

  lemma {:induction false} NothingFails(files: Files, paths: seq<string>, remaining: nat)
    ensures FirstFailure(files, paths[|paths|..], remaining).None?
  {
  }

  lemma {:induction false} FailureStep(files: Files, paths: seq<string>, i: nat, remaining: nat)
    requires i < |paths|
    ensures FirstFailure(files, paths[i..], remaining)
         == if !Readable(files, paths[i]) then Some(CannotRead(paths[i]))
            else if SizeOf(files, paths[i]) > remaining then Some(TooLarge(paths[i]))
            else FirstFailure(files, paths[i + 1..], remaining - SizeOf(files, paths[i]))
  {
    assert paths[i..][0] == paths[i] && paths[i..][1..] == paths[i + 1..];
  }

  lemma {:induction false} AddThenSet(a: map<nat, string>, b: map<nat, string>, i: nat, data: string)
    ensures (a + b)[i := data] == a + b[i := data]
  {
  }

  lemma {:induction false} CaptureStep(world: World, files: Files, paths: seq<string>, i: nat)
    requires i < |paths| && AllReadable(files, paths[..i]) && Readable(files, paths[i])
    ensures AllReadable(files, paths[..i + 1])
    ensures Entries(world, files, paths[..i + 1])
         == Entries(world, files, paths[..i]) + [Entry(paths[i], PreimageOf(world, files, paths[i], i), Empty)]
    ensures Blobs(files, paths[..i + 1])
         == if paths[i] in files && files[paths[i]].File? then Blobs(files, paths[..i])[i := files[paths[i]].content]
            else Blobs(files, paths[..i])
  {
    TakeMore(paths, i);
  }

  /** What sealing makes of the entries. */
  function Sealed(world: World, files: Files, entries: seq<Entry>): seq<Entry> {
    seq(|entries|, i requires 0 <= i < |entries| => entries[i].(after := StateOf(world, files, entries[i].path)))
  }

  // ----- Restoring -----

  /** Where preimages come from: the capture's own copies, by index, and the rings of all paths. */
  datatype Copies = Copies(own: map<nat, string>, rings: map<string, seq<Kept>>)

  /** The capture's own copy, or else what the ring of the path still has under its checksum. */
  function LoadPreimage(world: World, copies: Copies, path: string, before: Preimage): Option<Kept>
    requires before.WasFile?
  {
    if before.blob in copies.own then Some((copies.own[before.blob], before.mode))
    else if path in copies.rings then SnapshotRing.FromRing(world.hash, copies.rings[path], before.sha)
    else None
  }

  /** The capture's own copy whenever there is one; without it the newest in the ring of the path that has its checksum. */
  lemma {:induction false} OwnCopyThenRing(world: World, copies: Copies, path: string, before: Preimage, k: nat)
    requires before.WasFile?
    ensures var found := LoadPreimage(world, copies, path, before);
            && (before.blob in copies.own ==> found == Some((copies.own[before.blob], before.mode)))
            && (before.blob !in copies.own && (path in copies.rings ==> SnapshotRing.IsMissing(world.hash, copies.rings[path], before.sha)) ==>
                  found == None)
            && (before.blob !in copies.own && path in copies.rings
                && SnapshotRing.IsNewest(world.hash, copies.rings[path], before.sha, k) ==>
                  found == Some(copies.rings[path][k]))
  {
    if path in copies.rings {
      SnapshotRing.FoundIsNewest(world.hash, copies.rings[path], before.sha, k);
    }
  }

  datatype Action =
    | Skipped
    | StillAbsent
    | Removed
    | Unchanged
    | Restored

  /** The file tree afterwards and what was done; no action when the restore stopped here with an error. */
  datatype Step = Step(files: Files, action: Option<Action>)

  predicate IsSkipped(world: World, files: Files, entry: Entry, force: bool) {
    !force && StateOf(world, files, entry.path) != entry.after
  }

  /** Whatever is there goes first: writing over a link would follow it. */
  function Cleared(world: World, files: Files, path: string): Files {
    if StateOf(world, files, path).Empty? then files else files - {path}
  }

  function Outcome(cleared: Files, written: Option<Files>): Step {
    if written.Some? then Step(written.value, Some(Restored)) else Step(cleared, None)
  }

  function RestoreEntry(world: World, files: Files, copies: Copies, entry: Entry, force: bool): Step {
    var current := StateOf(world, files, entry.path);
    var cleared := Cleared(world, files, entry.path);
    if IsSkipped(world, files, entry, force) then Step(files, Some(Skipped))
    else
      match entry.before
      case WasAbsent =>
        if current.Empty? then Step(files, Some(StillAbsent)) else Step(files - {entry.path}, Some(Removed))
      case WasLink(target) =>
        if current == LinkState(target) then Step(files, Some(Unchanged))
        else Outcome(cleared, Symlink(cleared, entry.path, target))
      case WasFile(sha, blob, mode) =>
        if current == FileState(sha) then Step(files, Some(Unchanged))
        else
          var preimage := LoadPreimage(world, copies, entry.path, entry.before);
          if preimage.None? then Step(cleared, None)
          else Outcome(cleared, WriteFile(world, cleared, entry.path, preimage.value.0, preimage.value.1))
  }

  datatype Result' = Result'(files: Files, actions: seq<Action>, ok: bool)

  function RestoreFrom(world: World, files: Files, copies: Copies, entries: seq<Entry>, force: bool): Result'
    decreases |entries|
  {
    if |entries| == 0 then Result'(files, [], true)
    else
      var step := RestoreEntry(world, files, copies, entries[0], force);
      if step.action.None? then Result'(step.files, [], false)
      else
        var rest := RestoreFrom(world, step.files, copies, entries[1..], force);
        Result'(rest.files, [step.action.value] + rest.actions, rest.ok)
  }

  // ----- One entry -----

  /** Nothing but the entry's own path changes, links and all. */
  lemma {:induction false} OnlyThePathChanges(world: World, files: Files, copies: Copies, entry: Entry, force: bool, q: string)
    requires q != entry.path
    ensures Lookup(RestoreEntry(world, files, copies, entry, force).files, q) == Lookup(files, q)
  {
    var cleared := Cleared(world, files, entry.path);
    assert Resolve(world, cleared, entry.path, MAX_LINKS) == Some(entry.path);
  }

  /** The entry describes the node that stood at its path, and its content can still be loaded. */
  ghost predicate Describes(world: World, entry: Entry, copies: Copies, before: Option<Node>) {
    match entry.before
    case WasAbsent => before == None
    case WasLink(target) => before == Some(Link(target))
    case WasFile(sha, blob, mode) =>
      var preimage := LoadPreimage(world, copies, entry.path, entry.before);
      && preimage.Some? && sha == world.hash(preimage.value.0)
      && before == Some(File(preimage.value.0, mode))
  }

  /** Something stands here that a restore cannot make into what it was. */
  predicate Blocked(files: Files, path: string, before: Option<Node>) {
    path in files && before.Some? && (files[path].Unreadable? || (files[path].WriteOnly? && before.value.Link?))
  }

  /** What an entry does to its path. */
  lemma {:induction false} EntryRestores(world: World, files: Files, copies: Copies, entry: Entry, force: bool, before: Option<Node>)
    requires Injective(world.hash) && Describes(world, entry, copies, before)
    ensures var step := RestoreEntry(world, files, copies, entry, force);
            if IsSkipped(world, files, entry, force) then step == Step(files, Some(Skipped))
            else if Blocked(files, entry.path, before) then step == Step(files, None)
            else if before.None? && !Readable(files, entry.path) then step == Step(files, Some(StillAbsent))
            else step.action.Some? && step.action != Some(Skipped) && SameContent(Lookup(step.files, entry.path), before)
  {
    var path := entry.path;
    var cleared := Cleared(world, files, path);
    assert Resolve(world, cleared, path, MAX_LINKS) == Some(path);
  }

  /**
   When a path comes back to exactly what it was, given what stands there before the restore: a file whose content is
   the captured one keeps the mode it has, one that is written anew gets the mode of the preimage through the umask.
   */
  predicate ComesBack(world: World, at: Option<Node>, before: Option<Node>, mode: nat) {
    match before
    case Some(File(content, captured)) =>
      (match at
       case Some(File(x, kept)) => if x == content then kept == captured else world.masked(mode) == captured
       case Some(WriteOnly(_, _)) => false
       case Some(Unreadable) => false
       case _ => world.masked(mode) == captured)
    case _ => at.None? || at.value.File? || at.value.Link?
  }

  /** The mode that is given to the path when it is written. */
  function ModeFor(world: World, copies: Copies, entry: Entry): nat {
    if entry.before.WasFile? && LoadPreimage(world, copies, entry.path, entry.before).Some? then
      LoadPreimage(world, copies, entry.path, entry.before).value.1
    else 0
  }

  /** An entry that is not skipped brings its path back, mode and all, exactly in those cases. */
  lemma {:induction false} ModeComesBackWithContent(world: World, files: Files, copies: Copies, entry: Entry, force: bool, before: Option<Node>)
    requires Injective(world.hash) && Describes(world, entry, copies, before) && !IsSkipped(world, files, entry, force)
    ensures Lookup(RestoreEntry(world, files, copies, entry, force).files, entry.path) == before
       <==> ComesBack(world, Lookup(files, entry.path), before, ModeFor(world, copies, entry))
  {
    var cleared := Cleared(world, files, entry.path);
    assert Resolve(world, cleared, entry.path, MAX_LINKS) == Some(entry.path);
  }

  /** What is reported tells what stood at the path, and what stands there now. */
  ghost predicate ActionTells(world: World, files: Files, entry: Entry, force: bool, before: Option<Node>, step: Step) {
    var at, now := Lookup(files, entry.path), Lookup(step.files, entry.path);
    var seen := at.Some? && (at.value.File? || at.value.Link?);
    if !force && StateOf(world, files, entry.path) != entry.after then step.action == Some(Skipped) && now == at
    else if before.None? then
      if seen then step.action == Some(Removed) && now == None else step.action == Some(StillAbsent) && now == at
    else if seen && SameContent(at, before) then step.action == Some(Unchanged) && now == at
    else if at.Some? && (at.value.Unreadable? || (at.value.WriteOnly? && before.value.Link?)) then step.action == None && now == at
    else step.action == Some(Restored) && SameContent(now, before)
  }

  lemma {:induction false} ActionsTell(world: World, files: Files, copies: Copies, entry: Entry, force: bool, before: Option<Node>)
    requires Injective(world.hash) && Describes(world, entry, copies, before)
    ensures ActionTells(world, files, entry, force, before, RestoreEntry(world, files, copies, entry, force))
  {
    var path := entry.path;
    var cleared := Cleared(world, files, path);
    assert Resolve(world, cleared, path, MAX_LINKS) == Some(path);
  }

  // ----- A whole restore -----

  /** Paths outside the surface keep what they hold, even when the restore stops half way. */
  lemma {:induction false} OutsideIsUntouched(world: World, files: Files, copies: Copies, entries: seq<Entry>, force: bool, q: string)
    requires forall i :: 0 <= i < |entries| ==> entries[i].path != q
    ensures Lookup(RestoreFrom(world, files, copies, entries, force).files, q) == Lookup(files, q)
    decreases |entries|
  {
    if |entries| > 0 {
      OnlyThePathChanges(world, files, copies, entries[0], force, q);
      OutsideIsUntouched(world, RestoreEntry(world, files, copies, entries[0], force).files, copies, entries[1..], force, q);
    }
  }

  /** The entries were captured from `before` and sealed over `left`. */
  ghost predicate CapturedFrom(world: World, entries: seq<Entry>, copies: Copies, before: Files, left: Files) {
    forall i :: 0 <= i < |entries| ==>
      && Readable(before, entries[i].path)
      && Describes(world, entries[i], copies, Lookup(before, entries[i].path))
      && entries[i].after == StateOf(world, left, entries[i].path)
  }

  predicate HasPath(entries: seq<Entry>, p: string) {
    exists i :: 0 <= i < |entries| && entries[i].path == p
  }

  lemma {:induction false} FirstAndRest(world: World, entries: seq<Entry>, copies: Copies, before: Files, left: Files, p: string)
    requires CapturedFrom(world, entries, copies, before, left) && |entries| > 0
    ensures CapturedFrom(world, entries[1..], copies, before, left)
    ensures HasPath(entries, p) <==> entries[0].path == p || HasPath(entries[1..], p)
    ensures Readable(before, entries[0].path) && Describes(world, entries[0], copies, Lookup(before, entries[0].path))
    ensures entries[0].after == StateOf(world, left, entries[0].path)
  {
    assert forall i :: 0 <= i < |entries[1..]| ==> entries[1..][i] == entries[i + 1];
    if HasPath(entries, p) && entries[0].path != p {
      var i :| 0 <= i < |entries| && entries[i].path == p;
      assert entries[1..][i - 1].path == p;
    }
  }

  lemma {:induction false} FoundEntry(world: World, entries: seq<Entry>, copies: Copies, before: Files, left: Files, i: nat)
    requires CapturedFrom(world, entries, copies, before, left) && i < |entries|
    ensures Readable(before, entries[i].path) && Describes(world, entries[i], copies, Lookup(before, entries[i].path))
    ensures entries[i].after == StateOf(world, left, entries[i].path)
  {
  }

  /** The capture's own copies of the paths are among these. */
  ghost predicate HasCopies(copies: Copies, before: Files, paths: seq<string>) {
    forall i :: i in Blobs(before, paths) ==> i in copies.own && copies.own[i] == Blobs(before, paths)[i]
  }

  lemma {:induction false} CapturedIsCaptured(world: World, before: Files, left: Files, paths: seq<string>, copies: Copies)
    requires AllReadable(before, paths) && HasCopies(copies, before, paths)
    ensures CapturedFrom(world, Sealed(world, left, Entries(world, before, paths)), copies, before, left)
  {
    var entries := Sealed(world, left, Entries(world, before, paths));
    forall i | 0 <= i < |entries|
      ensures Readable(before, entries[i].path) && Describes(world, entries[i], copies, Lookup(before, entries[i].path))
    {
      assert Readable(before, paths[i]);
      assert paths[i] in before && before[paths[i]].File? ==> i in Blobs(before, paths);
    }
  }

  /** What one entry did to a path no later entry for the same path undoes or does again. */
  ghost predicate IsSettled(world: World, files: Files, force: bool, before: Files, left: Files, p: string) {
    || (!force && StateOf(world, files, p) != StateOf(world, left, p))
    || SameContent(Lookup(files, p), Lookup(before, p))
    || (p !in before && !Readable(files, p))
  }

  lemma {:induction false} StepSettles(world: World, files: Files, copies: Copies, entry: Entry, force: bool, before: Files, left: Files)
    requires Injective(world.hash) && Readable(before, entry.path)
    requires Describes(world, entry, copies, Lookup(before, entry.path)) && entry.after == StateOf(world, left, entry.path)
    ensures var step := RestoreEntry(world, files, copies, entry, force);
            && (step.action.Some? ==> IsSettled(world, step.files, force, before, left, entry.path))
            && (IsSettled(world, files, force, before, left, entry.path) ==> Lookup(step.files, entry.path) == Lookup(files, entry.path))
  {
    EntryRestores(world, files, copies, entry, force, Lookup(before, entry.path));
    var cleared := Cleared(world, files, entry.path);
    assert Resolve(world, cleared, entry.path, MAX_LINKS) == Some(entry.path);
  }

  lemma {:induction false} SettledStays(world: World, files: Files, copies: Copies, entries: seq<Entry>, force: bool,
                     before: Files, left: Files, p: string)
    requires Injective(world.hash) && CapturedFrom(world, entries, copies, before, left)
    requires IsSettled(world, files, force, before, left, p)
    ensures Lookup(RestoreFrom(world, files, copies, entries, force).files, p) == Lookup(files, p)
    decreases |entries|
  {
    hide RestoreEntry, CapturedFrom, Describes;
    if |entries| > 0 {
      FirstAndRest(world, entries, copies, before, left, p);
      var step := RestoreEntry(world, files, copies, entries[0], force);
      if entries[0].path == p {
        StepSettles(world, files, copies, entries[0], force, before, left);
      } else {
        OnlyThePathChanges(world, files, copies, entries[0], force, p);
      }
      if step.action.Some? {
        SettledStays(world, step.files, copies, entries[1..], force, before, left, p);
      }
    }
  }

  /** What an entry does to its path depends on nothing else. */
  lemma {:induction false} EntryIsLocal(world: World, f: Files, g: Files, copies: Copies, entry: Entry, force: bool)
    requires Lookup(f, entry.path) == Lookup(g, entry.path)
    ensures var (a, b) := (RestoreEntry(world, f, copies, entry, force), RestoreEntry(world, g, copies, entry, force));
            a.action == b.action && Lookup(a.files, entry.path) == Lookup(b.files, entry.path)
  {
    var path := entry.path;
    assert Resolve(world, Cleared(world, f, path), path, MAX_LINKS) == Some(path);
    assert Resolve(world, Cleared(world, g, path), path, MAX_LINKS) == Some(path);
  }

  /** Entry i is for path p, and alone would leave there what the whole restore leaves. */
  ghost predicate Decides(world: World, files: Files, copies: Copies, entries: seq<Entry>, force: bool, p: string, i: nat) {
    && i < |entries| && entries[i].path == p
    && RestoreEntry(world, files, copies, entries[i], force).action.Some?
    && Lookup(RestoreFrom(world, files, copies, entries, force).files, p)
       == Lookup(RestoreEntry(world, files, copies, entries[i], force).files, p)
  }

  /** A completed restore does to a path what its first entry alone would have done. */
  lemma {:induction false} FirstEntryDecides(world: World, files: Files, copies: Copies, entries: seq<Entry>, force: bool,
                          before: Files, left: Files, p: string) returns (i: nat)
    requires Injective(world.hash) && CapturedFrom(world, entries, copies, before, left) && HasPath(entries, p)
    requires RestoreFrom(world, files, copies, entries, force).ok
    ensures Decides(world, files, copies, entries, force, p, i)
    decreases |entries|
  {
    hide RestoreEntry, CapturedFrom, Describes;
    FirstAndRest(world, entries, copies, before, left, p);
    var step := RestoreEntry(world, files, copies, entries[0], force);
    if entries[0].path == p {
      StepSettles(world, files, copies, entries[0], force, before, left);
      SettledStays(world, step.files, copies, entries[1..], force, before, left, p);
      return 0;
    }
    OnlyThePathChanges(world, files, copies, entries[0], force, p);
    var j := FirstEntryDecides(world, step.files, copies, entries[1..], force, before, left, p);
    EntryIsLocal(world, step.files, files, copies, entries[1..][j], force);
    return j + 1;
  }

  /** What a completed restore makes of one path of the surface. */
  ghost predicate IsUndone(world: World, files: Files, force: bool, before: Files, left: Files, p: string, now: Option<Node>) {
    if (!force && StateOf(world, files, p) != StateOf(world, left, p)) || (p !in before && !Readable(files, p)) then
      now == Lookup(files, p)
    else SameContent(now, Lookup(before, p))
  }

  /** And when that is exactly what it was, mode and all. */
  ghost predicate IsUndoneExactly(world: World, files: Files, force: bool, before: Files, left: Files, p: string, now: Option<Node>) {
    now == Lookup(before, p)
    <==> if !force && StateOf(world, files, p) != StateOf(world, left, p) then Lookup(files, p) == Lookup(before, p)
         else ComesBack(world, Lookup(files, p), Lookup(before, p), if p in before && before[p].File? then before[p].mode else 0)
  }

  /**
   Capture, any command, seal, any later writes, restore.  A path of the surface that still holds what the command
   left there, or any with force, is back to its kind and content before the command; a path changed since then is
   left alone.  The exception is a path that was absent and where something unreadable stands now: the state taken for
   "nothing there" does not tell it from an absent one, so it stays.
   */
  lemma {:induction false} RestoreUndoes(world: World, before: Files, left: Files, now: Files, paths: seq<string>, copies: Copies, force: bool, p: string)
    requires Injective(world.hash) && AllReadable(before, paths) && p in paths && HasCopies(copies, before, paths)
    requires RestoreFrom(world, now, copies, Sealed(world, left, Entries(world, before, paths)), force).ok
    ensures var result := RestoreFrom(world, now, copies, Sealed(world, left, Entries(world, before, paths)), force);
            IsUndone(world, now, force, before, left, p, Lookup(result.files, p))
  {
    hide RestoreEntry;
    var entries := Sealed(world, left, Entries(world, before, paths));
    CapturedIsCaptured(world, before, left, paths, copies);
    var k :| 0 <= k < |paths| && paths[k] == p;
    assert entries[k].path == p;
    var i := FirstEntryDecides(world, now, copies, entries, force, before, left, p);
    EntryRestores(world, now, copies, entries[i], force, Lookup(before, p));
  }

  lemma {:induction false} ModeIsOwn(world: World, before: Files, left: Files, paths: seq<string>, copies: Copies, i: nat)
    requires AllReadable(before, paths) && i < |paths| && HasCopies(copies, before, paths)
    ensures ModeFor(world, copies, Sealed(world, left, Entries(world, before, paths))[i])
         == if paths[i] in before && before[paths[i]].File? then before[paths[i]].mode else 0
  {
    var p := paths[i];
    assert Readable(before, p);
    assert p in before && before[p].File? ==> i in Blobs(before, paths);
  }

  /**
   The modes: such a path is back to exactly what it was, mode and all, if and only if nothing needed to be written and
   the mode had not been changed, or something was written and the umask lets the captured mode through.
   */
  lemma {:induction false} RestoreUndoesExactly(world: World, before: Files, left: Files, now: Files, paths: seq<string>, copies: Copies, force: bool, p: string)
    requires Injective(world.hash) && AllReadable(before, paths) && p in paths && HasCopies(copies, before, paths)
    requires RestoreFrom(world, now, copies, Sealed(world, left, Entries(world, before, paths)), force).ok
    ensures var result := RestoreFrom(world, now, copies, Sealed(world, left, Entries(world, before, paths)), force);
            IsUndoneExactly(world, now, force, before, left, p, Lookup(result.files, p))
  {
    hide RestoreEntry, ComesBack, ModeFor, CapturedFrom, Describes, SameContent;
    var entries := Sealed(world, left, Entries(world, before, paths));
    CapturedIsCaptured(world, before, left, paths, copies);
    var k :| 0 <= k < |paths| && paths[k] == p;
    assert entries[k].path == p;
    assert CapturedFrom(world, entries, copies, before, left) && HasPath(entries, p);
    var i := FirstEntryDecides(world, now, copies, entries, force, before, left, p);
    FoundEntry(world, entries, copies, before, left, i);
    EntryRestores(world, now, copies, entries[i], force, Lookup(before, p));
    ModeIsOwn(world, before, left, paths, copies, i);
    if !IsSkipped(world, now, entries[i], force) {
      ModeComesBackWithContent(world, now, copies, entries[i], force, Lookup(before, p));
    }
  }

  // ----- When a restore stops -----

  /** Something existed here and has to come back, but what stands there cannot be made into it. */
  ghost predicate Stuck(world: World, files: Files, force: bool, before: Files, left: Files, p: string) {
    Blocked(files, p, Lookup(before, p)) && (force || StateOf(world, left, p).Empty?)
  }

  lemma {:induction false} StepKeepsStuck(world: World, files: Files, copies: Copies, entry: Entry, force: bool,
                       before: Files, left: Files, p: string)
    requires Injective(world.hash) && CapturedFrom(world, [entry], copies, before, left)
    ensures var step := RestoreEntry(world, files, copies, entry, force);
            && (step.action.None? <==> Stuck(world, files, force, before, left, entry.path))
            && (step.action.Some? ==> (Stuck(world, step.files, force, before, left, p) <==> Stuck(world, files, force, before, left, p)))
  {
    hide RestoreEntry;
    assert [entry][0] == entry;
    EntryRestores(world, files, copies, entry, force, Lookup(before, entry.path));
    if p != entry.path {
      OnlyThePathChanges(world, files, copies, entry, force, p);
    }
  }

  /** A restore completes exactly when no path of the surface is stuck. */
  lemma {:induction false} CompletesUnlessStuck(world: World, files: Files, copies: Copies, entries: seq<Entry>, force: bool,
                             before: Files, left: Files)
    requires Injective(world.hash) && CapturedFrom(world, entries, copies, before, left)
    ensures RestoreFrom(world, files, copies, entries, force).ok
       <==> forall i :: 0 <= i < |entries| ==> !Stuck(world, files, force, before, left, entries[i].path)
    decreases |entries|
  {
    hide RestoreEntry, Stuck;
    if |entries| > 0 {
      FirstAndRest(world, entries, copies, before, left, entries[0].path);
      var step := RestoreEntry(world, files, copies, entries[0], force);
      assert [entries[0]][0] == entries[0];
      assert CapturedFrom(world, [entries[0]], copies, before, left);
      StepKeepsStuck(world, files, copies, entries[0], force, before, left, entries[0].path);
      if step.action.Some? {
        CompletesUnlessStuck(world, step.files, copies, entries[1..], force, before, left);
        forall i | 0 <= i < |entries|
          ensures Stuck(world, step.files, force, before, left, entries[i].path) <==> Stuck(world, files, force, before, left, entries[i].path)
        {
          StepKeepsStuck(world, files, copies, entries[0], force, before, left, entries[i].path);
        }
        assert forall i :: 1 <= i < |entries| ==> entries[i] == entries[1..][i - 1];
      }
    }
  }

  /** A restore of a captured surface: when it completes, what it undoes, and what it leaves alone. */
  lemma {:induction false} SurfaceIsUndone(world: World, before: Files, left: Files, now: Files, paths: seq<string>, copies: Copies, force: bool)
    requires Injective(world.hash) && AllReadable(before, paths) && HasCopies(copies, before, paths)
    ensures var result := RestoreFrom(world, now, copies, Sealed(world, left, Entries(world, before, paths)), force);
            && (result.ok <==> forall p :: p in paths ==> !Stuck(world, now, force, before, left, p))
            && (result.ok ==> forall p :: p in paths ==>
                  && IsUndone(world, now, force, before, left, p, Lookup(result.files, p))
                  && IsUndoneExactly(world, now, force, before, left, p, Lookup(result.files, p)))
            && forall q :: q !in paths ==> Lookup(result.files, q) == Lookup(now, q)
  {
    hide RestoreFrom, CapturedFrom, IsUndone, IsUndoneExactly, Stuck, HasCopies;
    var entries := Sealed(world, left, Entries(world, before, paths));
    var result := RestoreFrom(world, now, copies, entries, force);
    CapturedIsCaptured(world, before, left, paths, copies);
    CompletesUnlessStuck(world, now, copies, entries, force, before, left);
    assert forall i :: 0 <= i < |paths| ==> entries[i].path == paths[i];
    assert (forall i :: 0 <= i < |entries| ==> !Stuck(world, now, force, before, left, entries[i].path))
      <==> forall p :: p in paths ==> !Stuck(world, now, force, before, left, p);
    forall p | p in paths && result.ok
      ensures IsUndone(world, now, force, before, left, p, Lookup(result.files, p))
      ensures IsUndoneExactly(world, now, force, before, left, p, Lookup(result.files, p))
    {
      RestoreUndoes(world, before, left, now, paths, copies, force, p);
      RestoreUndoesExactly(world, before, left, now, paths, copies, force, p);
    }
    forall q | q !in paths ensures Lookup(result.files, q) == Lookup(now, q) {
      OutsideIsUntouched(world, now, copies, entries, force, q);
    }
  }

  // ----- Three cases in which a path does not come back -----

  /** A restore of one path, captured from one tree, sealed over another and run on a third. */
  function RestoreOf(world: World, before: Files, left: Files, now: Files, path: string, force: bool): Result'
    requires Readable(before, path)
  {
    RestoreFrom(world, now, Copies(Blobs(before, [path]), map[]), Sealed(world, left, Entries(world, before, [path])), force)
  }

  lemma {:induction false} RestoreOfOne(world: World, before: Files, left: Files, now: Files, path: string, force: bool)
    requires Readable(before, path)
    ensures var entry := Entry(path, PreimageOf(world, before, path, 0), StateOf(world, left, path));
            var step := RestoreEntry(world, now, Copies(Blobs(before, [path]), map[]), entry, force);
            RestoreOf(world, before, left, now, path, force)
            == Result'(step.files, if step.action.None? then [] else [step.action.value], step.action.Some?)
  {
    hide RestoreEntry;
    var entry := Entry(path, PreimageOf(world, before, path, 0), StateOf(world, left, path));
    assert AllReadable(before, [path]) && [path][0] == path;
    assert Sealed(world, left, Entries(world, before, [path])) == [entry];
    assert [entry][1..] == [] && [entry][0] == entry;
    var copies := Copies(Blobs(before, [path]), map[]);
    var step := RestoreEntry(world, now, copies, entry, force);
    assert RestoreFrom(world, step.files, copies, [], force) == Result'(step.files, [], true);
    assert step.action.Some? ==> [step.action.value] + [] == [step.action.value];
  }

  /** A command that only changes the mode of a file is not undone. */
  lemma {:induction false} ChangedModeStays(world: World, path: string, content: string, force: bool)
    ensures var (before, left) := (map[path := File(content, 0x180)], map[path := File(content, 0x1a4)]);
            RestoreOf(world, before, left, left, path, force) == Result'(left, [Unchanged], true)
  {
    RestoreOfOne(world, map[path := File(content, 0x180)], map[path := File(content, 0x1a4)], map[path := File(content, 0x1a4)], path, force);
  }

  /** Something unreadable where nothing was is taken for nothing. */
  lemma {:induction false} UnreadableStays(world: World, path: string, force: bool)
    ensures var left := map[path := Unreadable];
            RestoreOf(world, map[], left, left, path, force) == Result'(left, [StillAbsent], true)
  {
    RestoreOfOne(world, map[], map[path := Unreadable], map[path := Unreadable], path, force);
  }

  /** Something unreadable where a file was stops the restore. */
  lemma {:induction false} UnreadableStops(world: World, path: string, content: string, mode: nat, force: bool)
    ensures var (before, left) := (map[path := File(content, mode)], map[path := Unreadable]);
            RestoreOf(world, before, left, left, path, force) == Result'(left, [], false)
  {
    RestoreOfOne(world, map[path := File(content, mode)], map[path := Unreadable], map[path := Unreadable], path, force);
  }

  // ----- What is reported -----

  predicate DistinctPaths(entries: seq<Entry>) {
    forall i, j :: 0 <= i < j < |entries| ==> entries[i].path != entries[j].path
  }

  /** With distinct paths, exactly those changed since the command are reported as skipped. */
  lemma {:induction false} SkipsAreReported(world: World, files: Files, copies: Copies, entries: seq<Entry>, force: bool, i: nat)
    requires DistinctPaths(entries) && i < |RestoreFrom(world, files, copies, entries, force).actions|
    ensures i < |entries|
    ensures RestoreFrom(world, files, copies, entries, force).actions[i] == Skipped <==> IsSkipped(world, files, entries[i], force)
    decreases |entries|
  {
    if i > 0 {
      var step := RestoreEntry(world, files, copies, entries[0], force);
      assert forall j :: 0 <= j < |entries[1..]| ==> entries[1..][j] == entries[j + 1];
      SkipsAreReported(world, step.files, copies, entries[1..], force, i - 1);
      OnlyThePathChanges(world, files, copies, entries[0], force, entries[i].path);
      assert entries[1..][i - 1] == entries[i];
    }
  }

  // ----- The vault -----

  class Vault {
    const world: World
    var files: Files
    var captures: map<string, seq<Entry>>
    var blobs: map<string, map<nat, string>>
    /** The ring of every path, kept by other writers. */
    var rings: map<string, seq<Kept>>

    constructor (world: World, files: Files, rings: map<string, seq<Kept>>)
      ensures this.world == world && this.files == files && this.rings == rings && captures == map[] && blobs == map[]
    {
      this.world, this.files, this.rings, captures, blobs := world, files, rings, map[], map[];
    }

    /** The capture's own copies. */
    function BlobsOf(id: string): map<nat, string>
      reads this
    {
      if id in blobs then blobs[id] else map[]
    }

    function CopiesOf(id: string): Copies
      reads this
    {
      Copies(BlobsOf(id), rings)
    }

    method WriteBlob(id: string, index: nat, data: string)
      modifies this`blobs
      ensures BlobsOf(id) == old(BlobsOf(id))[index := data]
      ensures forall other :: other != id ==> BlobsOf(other) == old(BlobsOf(other))
    {
      blobs := blobs[id := BlobsOf(id)[index := data]];
    }

    method DeleteCapture(id: string) returns (error: Option<Error>)
      modifies this`captures, this`blobs
      ensures error == if ValidId(id) then None else Some(InvalidId)
      ensures error.Some? ==> captures == old(captures) && blobs == old(blobs)
      ensures error.None? ==> captures == old(captures) - {id} && blobs == old(blobs) - {id}
    {
      if !ValidId(id) {
        return Some(InvalidId);
      }
      captures := captures - {id};
      blobs := blobs - {id};
      return None;
    }

    /** Either the whole surface is recorded under the id, or nothing is left under it. */
    method CaptureSurfaceBounded(id: string, paths: seq<string>, ceiling: nat) returns (r: Result<seq<Entry>, Error>)
      modifies this`captures, this`blobs
      ensures !ValidId(id) ==> r == Err(InvalidId) && captures == old(captures) && blobs == old(blobs)
      ensures ValidId(id) && FirstFailure(files, paths, ceiling).Some? ==>
                r == Err(FirstFailure(files, paths, ceiling).value) && captures == old(captures) - {id} && id !in blobs
      ensures ValidId(id) && FirstFailure(files, paths, ceiling).None? ==>
                && AllReadable(files, paths) && r == Ok(Entries(world, files, paths))
                && captures == old(captures)[id := r.value]
                && BlobsOf(id) == old(BlobsOf(id)) + Blobs(files, paths)
      ensures forall other :: other != id ==> BlobsOf(other) == old(BlobsOf(other))
    {
      hide Entries, Blobs, FirstFailure, AllReadable;
      if !ValidId(id) {
        return Err(InvalidId);
      }
      NothingCaptured(world, files);
      assert paths[..0] == [];
      var entries: seq<Entry> := [];
      var remaining := ceiling;
      assert paths[0..] == paths;
      for index := 0 to |paths|
        invariant captures == old(captures)
        invariant FirstFailure(files, paths[index..], remaining) == FirstFailure(files, paths, ceiling)
        invariant AllReadable(files, paths[..index]) && entries == Entries(world, files, paths[..index])
        invariant BlobsOf(id) == old(BlobsOf(id)) + Blobs(files, paths[..index])
        invariant forall other :: other != id ==> BlobsOf(other) == old(BlobsOf(other))
      {
        var path := paths[index];
        FailureStep(files, paths, index, remaining);
        if Readable(files, path) {
          CaptureStep(world, files, paths, index);
        }
        if path !in files {
          entries := entries + [Entry(path, WasAbsent, Empty)];
          continue;
        }
        match files[path] {
          case Link(target) =>
            entries := entries + [Entry(path, WasLink(target), Empty)];
          case File(data, mode) =>
            if |data| > remaining {
              var _ := DeleteCapture(id);
              return Err(TooLarge(path));
            }
            remaining := remaining - |data|;
            WriteBlob(id, index, data);
            AddThenSet(old(BlobsOf(id)), Blobs(files, paths[..index]), index, data);
            entries := entries + [Entry(path, WasFile(world.hash(data), index, mode), Empty)];
          case _ =>
            var _ := DeleteCapture(id);
            return Err(CannotRead(path));
        }
      }
      assert paths[..|paths|] == paths;
      NothingFails(files, paths, remaining);
      captures := captures[id := entries];
      return Ok(entries);
    }

    method SealCapture(id: string) returns (error: Option<Error>)
      modifies this`captures
      ensures error == if !ValidId(id) then Some(InvalidId) else if id !in old(captures) then Some(NotFound) else None
      ensures captures == if error.Some? then old(captures)
                          else old(captures)[id := Sealed(world, files, old(captures)[id])]
    {
      if !ValidId(id) {
        return Some(InvalidId);
      }
      if id !in captures {
        return Some(NotFound);
      }
      var entries := captures[id];
      var record := entries;
      for index := 0 to |record|
        invariant |record| == |entries|
        invariant forall i :: 0 <= i < index ==> record[i] == entries[i].(after := StateOf(world, files, entries[i].path))
        invariant forall i :: index <= i < |record| ==> record[i] == entries[i]
      {
        record := record[index := record[index].(after := StateOf(world, files, record[index].path))];
      }
      assert record == Sealed(world, files, entries);
      captures := captures[id := record];
      return None;
    }

    method RestoreCapture(id: string, force: bool) returns (actions: seq<Action>, error: Option<Error>)
      modifies this`files
      ensures !ValidId(id) ==> error == Some(InvalidId) && files == old(files) && actions == []
      ensures ValidId(id) && id !in captures ==> error == Some(NotFound) && files == old(files) && actions == []
      ensures ValidId(id) && id in captures ==>
                var result := RestoreFrom(world, old(files), CopiesOf(id), captures[id], force);
                files == result.files && actions == result.actions && error.None? == result.ok
    {
      hide RestoreEntry;
      actions := [];
      if !ValidId(id) {
        return actions, Some(InvalidId);
      }
      if id !in captures {
        return actions, Some(NotFound);
      }
      var entries := captures[id];
      assert entries[0..] == entries;
      for i := 0 to |entries|
        invariant |actions| == i
        invariant RestoreFrom(world, old(files), CopiesOf(id), entries, force)
               == Prefixed(actions, RestoreFrom(world, files, CopiesOf(id), entries[i..], force))
      {
        assert entries[i..][0] == entries[i] && entries[i..][1..] == entries[i + 1..];
        var action := RestoreOne(id, entries[i], force);
        if action.None? {
          return actions, Some(CannotRestore(entries[i].path));
        }
        PrefixedStep(actions, action.value, RestoreFrom(world, files, CopiesOf(id), entries[i + 1..], force));
        actions := actions + [action.value];
      }
      return actions, None;
    }

    method ReadPreimage(id: string, path: string, before: Preimage) returns (preimage: Option<Kept>)
      requires before.WasFile?
      ensures preimage == LoadPreimage(world, CopiesOf(id), path, before)
    {
      if before.blob in BlobsOf(id) {
        return Some((BlobsOf(id)[before.blob], before.mode));
      }
      if path !in rings {
        return None;
      }
      var ring := rings[path];
      assert ring[0..] == ring;
      for i := 0 to |ring|
        invariant SnapshotRing.FromRing(world.hash, ring[i..], before.sha) == SnapshotRing.FromRing(world.hash, ring, before.sha)
      {
        assert ring[i..][0] == ring[i] && ring[i..][1..] == ring[i + 1..];
        if world.hash(ring[i].0) == before.sha {
          return Some(ring[i]);
        }
      }
      return None;
    }

    method RestoreOne(id: string, entry: Entry, force: bool) returns (action: Option<Action>)
      modifies this`files
      ensures Step(files, action) == RestoreEntry(world, old(files), CopiesOf(id), entry, force)
    {
      var path := entry.path;
      var current := StateOf(world, files, path);
      if !force && current != entry.after {
        return Some(Skipped);
      }
      if entry.before.WasAbsent? {
        if current.Empty? {
          return Some(StillAbsent);
        }
        files := files - {path};
        return Some(Removed);
      }
      var want := if entry.before.WasLink? then LinkState(entry.before.target) else FileState(entry.before.sha);
      if current == want {
        return Some(Unchanged);
      }
      if !current.Empty? {
        files := files - {path};
      }
      if entry.before.WasLink? {
        var linked := Symlink(files, path, entry.before.target);
        if linked.None? {
          return None;
        }
        files := linked.value;
        return Some(Restored);
      }
      var preimage := ReadPreimage(id, path, entry.before);
      if preimage.None? {
        return None;
      }
      var written := WriteFile(world, files, path, preimage.value.0, preimage.value.1);
      if written.None? {
        return None;
      }
      files := written.value;
      return Some(Restored);
    }
  }

  // ----- A command and its way back -----

  /**
   A capture of the surface, a command that leaves `left`, the seal, other writers who leave `later`, and the restore:
   when every step succeeds, every path of the surface is undone and no other is touched.
   */
  method UndoCommand(vault: Vault, id: string, paths: seq<string>, ceiling: nat, left: Files, later: Files, force: bool) returns (undone: bool)
    requires Injective(vault.world.hash)
    modifies vault
    ensures undone ==> forall p :: p in paths ==>
              && IsUndone(vault.world, later, force, old(vault.files), left, p, Lookup(vault.files, p))
              && IsUndoneExactly(vault.world, later, force, old(vault.files), left, p, Lookup(vault.files, p))
    ensures undone ==> forall q :: q !in paths ==> Lookup(vault.files, q) == Lookup(later, q)
    ensures undone <==> ValidId(id) && FirstFailure(old(vault.files), paths, ceiling).None?
                        && forall p :: p in paths ==> !Stuck(vault.world, later, force, old(vault.files), left, p)
  {
    hide RestoreFrom, IsUndone, IsUndoneExactly, Stuck, FirstFailure, Injective, Blobs;
    ghost var before := vault.files;
    var captured := vault.CaptureSurfaceBounded(id, paths, ceiling);
    if captured.Err? {
      return false;
    }
    vault.files := left;
    var _ := vault.SealCapture(id);
    vault.files := later;
    SurfaceIsUndone(vault.world, before, left, later, paths, vault.CopiesOf(id), force);
    var actions, error := vault.RestoreCapture(id, force);
    return error.None?;
  }

  lemma {:induction false} PrefixedStep(done: seq<Action>, action: Action, rest: Result')
    ensures Prefixed(done, rest.(actions := [action] + rest.actions)) == Prefixed(done + [action], rest)
  {
    Regroup3(done, [action], rest.actions);
  }

  /** The actions done so far, before those of the rest. */
  function Prefixed(done: seq<Action>, rest: Result'): Result' {
    rest.(actions := done + rest.actions)
  }
}
