/**
 The ring of snapshots of one path: metadata entries, newest first, renumbered at every capture, and the files that
 hold the bytes.  It keeps the last three preimages and nothing else.
 */
module SnapshotRing {
  import opened Text

  const RING_SIZE: nat := 3

  datatype Entry = Entry(version: int, file: string, sha: string, mode: nat)

  datatype Error = ChecksumMismatch | VersionNotFound | MissingFile

  /** Renumbered from one. */
  function Renumbered(entries: seq<Entry>): seq<Entry> {
    seq(|entries|, i requires 0 <= i < |entries| => entries[i].(version := i + 1))
  }

  predicate DistinctFiles(entries: seq<Entry>) {
    forall i, j :: 0 <= i < j < |entries| ==> entries[i].file != entries[j].file
  }

  predicate HasFile(entries: seq<Entry>, name: string) {
    exists i :: 0 <= i < |entries| && entries[i].file == name
  }

  /** The entry holds this preimage and mode under version i + 1. */
  predicate Holds(hash: string -> string, entry: Entry, files: map<string, string>, preimage: (string, nat), i: nat) {
    && entry.version == i + 1
    && entry.file in files && files[entry.file] == preimage.0
    && entry.sha == hash(preimage.0)
    && entry.mode == preimage.1
  }

  /** The last three captures, in order, and no file besides theirs. */
  predicate RingOf(hash: string -> string, entries: seq<Entry>, files: map<string, string>, history: seq<(string, nat)>) {
    && |entries| == Min(RING_SIZE, |history|)
    && DistinctFiles(entries)
    && (forall i :: 0 <= i < |entries| ==> Holds(hash, entries[i], files, history[i], i))
    && (forall name :: name in files ==> HasFile(entries, name))
  }

  /** The entries after a capture and the files after the eviction. */
  function Pushed(entries: seq<Entry>, entry: Entry): seq<Entry> {
    var all := [entry] + entries;
    Renumbered(if |all| > RING_SIZE then all[..RING_SIZE] else all)
  }

  function Evicted(entries: seq<Entry>, files: map<string, string>): map<string, string> {
    if |entries| >= RING_SIZE then files - {entries[RING_SIZE - 1].file} else files
  }

  lemma {:induction false} PushKeepsFiles(entries: seq<Entry>, files: map<string, string>, entry: Entry, preimage: string)
    requires entry.file !in files && |entries| <= RING_SIZE
    requires DistinctFiles(entries) && (forall i :: 0 <= i < |entries| ==> entries[i].file in files)
    requires forall name :: name in files ==> HasFile(entries, name)
    ensures DistinctFiles(Pushed(entries, entry))
    ensures forall name :: name in Evicted(entries, files)[entry.file := preimage] ==> HasFile(Pushed(entries, entry), name)
  {
    var pushed := Pushed(entries, entry);
    assert forall i :: 1 <= i < |pushed| ==> pushed[i].file == entries[i - 1].file;
    assert pushed[0].file == entry.file;
    forall name | name in Evicted(entries, files)[entry.file := preimage] ensures HasFile(pushed, name) {
      if name != entry.file {
        var i :| 0 <= i < |entries| && entries[i].file == name;
        assert pushed[i + 1].file == name;
      }
    }
  }

  lemma {:induction false} PushKeepsSlots(hash: string -> string, entries: seq<Entry>, files: map<string, string>, history: seq<(string, nat)>,
                        entry: Entry, preimage: (string, nat))
    requires RingOf(hash, entries, files, history) && entry.file !in files
    requires entry.sha == hash(preimage.0) && entry.mode == preimage.1
    ensures RingOf(hash, Pushed(entries, entry), Evicted(entries, files)[entry.file := preimage.0], [preimage] + history)
    ensures |entries| <= RING_SIZE && (|entries| == RING_SIZE ==> entries[RING_SIZE - 1].file != entry.file)
  {
    var pushed, files' := Pushed(entries, entry), Evicted(entries, files)[entry.file := preimage.0];
    assert forall i :: 0 <= i < |entries| ==> Holds(hash, entries[i], files, history[i], i) && entries[i].file in files;
    PushKeepsFiles(entries, files, entry, preimage.0);
    forall i | 0 <= i < |pushed| ensures Holds(hash, pushed[i], files', ([preimage] + history)[i], i) {
      PushKeepsSlot(hash, entries, files, history, entry, preimage, i);
    }
    hide Pushed, Evicted, Holds;
    assert |pushed| == Min(RING_SIZE, |[preimage] + history|) by {
      PushedLength(entries, entry);
    }
  }

  lemma {:induction false} PushedLength(entries: seq<Entry>, entry: Entry)
    ensures |Pushed(entries, entry)| == Min(RING_SIZE, |entries| + 1)
  {
  }

  lemma {:induction false} PushKeepsSlot(hash: string -> string, entries: seq<Entry>, files: map<string, string>, history: seq<(string, nat)>,
                       entry: Entry, preimage: (string, nat), i: nat)
    requires RingOf(hash, entries, files, history) && entry.file !in files
    requires entry.sha == hash(preimage.0) && entry.mode == preimage.1
    requires i < |Pushed(entries, entry)|
    ensures i <= |history| && Holds(hash, Pushed(entries, entry)[i], Evicted(entries, files)[entry.file := preimage.0], ([preimage] + history)[i], i)
  {
    if i > 0 {
      assert Holds(hash, entries[i - 1], files, history[i - 1], i - 1);
      assert Pushed(entries, entry)[i] == entries[i - 1].(version := i + 1);
    }
  }

  /** A preimage and its mode. */
  type Kept = (string, nat)

  /** The newest preimage of a ring with this checksum. */
  function FromRing(hash: string -> string, ring: seq<Kept>, sha: string): (found: Option<Kept>)
    ensures found.Some? ==> hash(found.value.0) == sha
  {
    if |ring| == 0 then None
    else if hash(ring[0].0) == sha then Some(ring[0])
    else FromRing(hash, ring[1..], sha)
  }

  /** The preimage at k is the newest with this checksum. */
  ghost predicate IsNewest(hash: string -> string, ring: seq<Kept>, sha: string, k: nat) {
    k < |ring| && hash(ring[k].0) == sha && forall i :: 0 <= i < k ==> hash(ring[i].0) != sha
  }

  ghost predicate IsMissing(hash: string -> string, ring: seq<Kept>, sha: string) {
    forall i :: 0 <= i < |ring| ==> hash(ring[i].0) != sha
  }

  lemma {:induction false} FoundIsNewest(hash: string -> string, ring: seq<Kept>, sha: string, k: nat)
    ensures IsMissing(hash, ring, sha) ==> FromRing(hash, ring, sha) == None
    ensures IsNewest(hash, ring, sha, k) ==> FromRing(hash, ring, sha) == Some(ring[k])
  {
    if |ring| > 0 {
      FoundIsNewest(hash, ring[1..], sha, if k > 0 then k - 1 else 0);
    }
  }

  class Ring {
    const hash: string -> string
    var entries: seq<Entry>
    var files: map<string, string>
    /** Every preimage and mode captured so far, newest first. */
    ghost var history: seq<(string, nat)>

    ghost predicate Valid()
      reads this
    {
      RingOf(hash, entries, files, history)
    }

    constructor (hash: string -> string)
      ensures Valid() && this.hash == hash && history == []
    {
      this.hash := hash;
      entries, files, history := [], map[], [];
    }

    /** name is the file name made from the clock and the checksum, not in use yet. */
    method Capture(preimage: string, mode: nat, name: string)
      requires Valid() && name !in files
      modifies this
      ensures Valid() && history == [(preimage, mode)] + old(history)
    {
      hide RingOf, Renumbered;
      PushKeepsSlots(hash, entries, files, history, Entry(1, name, hash(preimage), mode), (preimage, mode));
      files := files[name := preimage];
      var all := [Entry(1, name, hash(preimage), mode)] + entries;
      if |all| > RING_SIZE {
        files := files - {all[RING_SIZE].file};
        all := all[..RING_SIZE];
      }
      assert files == Evicted(old(entries), old(files))[name := preimage];
      entries := Renumbered(all);
      history := [(preimage, mode)] + history;
    }

    /** Version k is the k-th newest preimage, as long as it is one of the last three; zero or less means the newest. */
    method Load(version: int) returns (r: Result<(string, nat), Error>)
      requires Valid()
      ensures var wanted := if version <= 0 then 1 else version;
              r == if wanted <= Min(3, |history|) then Ok(history[wanted - 1]) else Err(VersionNotFound)
    {
      var wanted := if version <= 0 then 1 else version;
      for i := 0 to |entries|
        invariant wanted > i
      {
        assert Holds(hash, entries[i], files, history[i], i);
        if entries[i].version == wanted {
          if entries[i].file !in files {
            return Err(MissingFile);
          }
          var data := files[entries[i].file];
          if hash(data) != entries[i].sha {
            return Err(ChecksumMismatch);
          }
          return Ok((data, entries[i].mode));
        }
      }
      return Err(VersionNotFound);
    }

    /** The newest of the last three preimages that has this checksum, wherever later captures have moved it. */
    method LoadBySha(sha: string) returns (found: Option<Kept>)
      requires Valid()
      ensures found == FromRing(hash, history[..Min(3, |history|)], sha)
    {
      ghost var ring := history[..Min(RING_SIZE, |history|)];
      assert ring[0..] == ring;
      for i := 0 to |entries|
        invariant FromRing(hash, ring[i..], sha) == FromRing(hash, ring, sha)
      {
        assert Holds(hash, entries[i], files, history[i], i);
        assert ring[i..][0] == history[i] && ring[i..][1..] == ring[i + 1..];
        if entries[i].sha == sha {
          var loaded := Load(entries[i].version);
          assert loaded == Ok(history[i]);
          return Some(loaded.value);
        }
      }
      return None;
    }
  }
}
