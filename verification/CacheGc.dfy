/** Removing a model from the cache: its snapshot entries, and the blobs that no
    entry refers to any more. */
module CacheGc {
  import Shards

  type Path = string

  /** A snapshot entry is a link to a blob, or a file of its own. */
  datatype Entry = Link(target: Path) | File

  /** What the file system does during one call: the entries the listing sees, the
      removals that fail, the links that cannot be read before and after. */
  datatype Env = Env(visible: set<Path>, fails: set<Path>, unreadBefore: set<Path>, unreadAfter: set<Path>)

  type Entries = map<Path, Entry>

  function SetOf(files: seq<Path>): set<Path> {
    set p | p in files
  }

  function Seen(entries: Entries, env: Env): set<Path> {
    entries.Keys * env.visible
  }

  /** The listed entries that carry the tag. */
  function Tagged(entries: Entries, env: Env, tagOf: Path -> string, tag: string): set<Path> {
    set p | p in Seen(entries, env) && tagOf(p) == tag
  }

  /** The blobs behind those of some entries that are links and can be read. */
  function Targets(entries: Entries, ps: set<Path>, unread: set<Path>): set<Path>
    requires ps <= entries.Keys
  {
    set p | p in ps && entries[p].Link? && p !in unread :: entries[p].target
  }

  function EntriesLeft(entries: Entries, env: Env, tagged: set<Path>): Entries {
    entries - (tagged - env.fails)
  }

  function Referenced(entries: Entries, env: Env): set<Path> {
    Targets(entries, Seen(entries, env), env.unreadAfter)
  }

  function BlobsLeft(entries: Entries, blobs: set<Path>, env: Env, tagged: set<Path>): set<Path>
    requires tagged <= entries.Keys
  {
    blobs - (Targets(entries, tagged, env.unreadBefore) - Referenced(EntriesLeft(entries, env, tagged), env) - env.fails)
  }

  class Cache {
    var entries: Entries
    var blobs: set<Path>

    constructor (entries: Entries, blobs: set<Path>)
      ensures this.entries == entries && this.blobs == blobs
    {
      this.entries, this.blobs := entries, blobs;
    }

    /** The entries of the current snapshot, in some order. */
    method GetCachedFiles(env: Env) returns (files: seq<Path>)
      ensures forall p :: p in files <==> p in Seen(entries, env)
    {
      files := [];
      var rest := Seen(entries, env);
      while rest != {}
        invariant rest <= Seen(entries, env) && forall p :: p in files <==> p in Seen(entries, env) - rest
        decreases |rest|
      {
        var p :| p in rest;
        files := files + [p];
        rest := rest - {p};
      }
    }

    /** Reads where a link leads; an entry that is no link leads nowhere. */
    method ReadLinks(files: seq<Path>, unread: set<Path>) returns (targets: seq<Path>)
      requires forall p :: p in files ==> p in entries
      ensures forall b :: b in targets <==> b in Targets(entries, SetOf(files), unread)
    {
      targets := [];
      var i := 0;
      while i < |files|
        invariant i <= |files| && forall b :: b in targets <==> b in Targets(entries, SetOf(files[..i]), unread)
      {
        var entry := entries[files[i]];
        MoreTargets(entries, files, i, unread);
        if entry.Link? && files[i] !in unread {
          targets := targets + [entry.target];
        }
        i := i + 1;
      }
      assert files[..i] == files;
    }

    method RemoveEntries(files: seq<Path>, env: Env)
      modifies this`entries
      ensures entries == old(entries) - (SetOf(files) - env.fails)
    {
      var i := 0;
      while i < |files|
        invariant i <= |files| && entries == old(entries) - (SetOf(files[..i]) - env.fails)
      {
        assert files[..i + 1] == files[..i] + [files[i]];
        if files[i] !in env.fails {
          entries := entries - {files[i]};
        }
        i := i + 1;
      }
      assert files[..i] == files;
    }

    method RemoveOrphans(candidates: seq<Path>, stillReferenced: seq<Path>, env: Env)
      modifies this`blobs
      ensures blobs == old(blobs) - (SetOf(candidates) - SetOf(stillReferenced) - env.fails)
    {
      var i := 0;
      while i < |candidates|
        invariant i <= |candidates|
        invariant blobs == old(blobs) - (SetOf(candidates[..i]) - SetOf(stillReferenced) - env.fails)
      {
        assert candidates[..i + 1] == candidates[..i] + [candidates[i]];
        if candidates[i] !in stillReferenced && candidates[i] !in env.fails {
          blobs := blobs - {candidates[i]};
        }
        i := i + 1;
      }
      assert candidates[..i] == candidates;
    }

    /** Removes a tag; false when nothing carries it. */
    method RemoveTag(tag: string, tagOf: Path -> string, env: Env) returns (removed: bool)
      modifies this
      ensures var tagged := Tagged(old(entries), env, tagOf, Shards.Upper(tag));
        removed == (tagged != {}) &&
        entries == EntriesLeft(old(entries), env, tagged) && blobs == BlobsLeft(old(entries), old(blobs), env, tagged)
    {
      var tagUpper := Shards.Upper(tag);
      var files := GetCachedFiles(env);
      var toRemove := [];
      var i := 0;
      while i < |files|
        invariant i <= |files| && forall p :: p in toRemove <==> p in files[..i] && tagOf(p) == tagUpper
      {
        assert files[..i + 1] == files[..i] + [files[i]];
        if tagOf(files[i]) == tagUpper {
          toRemove := toRemove + [files[i]];
        }
        i := i + 1;
      }
      assert files[..i] == files;
      ghost var tagged := Tagged(entries, env, tagOf, tagUpper);
      assert SetOf(toRemove) == tagged;
      if |toRemove| == 0 {
        assert tagged == {};
        return false;
      }
      assert toRemove[0] in tagged;
      var blobsToCheck := ReadLinks(toRemove, env.unreadBefore);
      RemoveEntries(toRemove, env);
      assert entries == EntriesLeft(old(entries), env, tagged);
      if |blobsToCheck| == 0 {
        return true;
      }
      var remaining := GetCachedFiles(env);
      var stillReferenced := ReadLinks(remaining, env.unreadAfter);
      assert SetOf(remaining) == Seen(entries, env);
      RemoveOrphans(blobsToCheck, stillReferenced, env);
      removed := true;
    }
  }

  lemma MoreTargets(entries: Entries, files: seq<Path>, i: nat, unread: set<Path>)
    requires i < |files| && forall p :: p in files ==> p in entries
    ensures var more, less := Targets(entries, SetOf(files[..i + 1]), unread), Targets(entries, SetOf(files[..i]), unread);
      var e := entries[files[i]];
      more == if e.Link? && files[i] !in unread then less + {e.target} else less
  {
    assert files[..i + 1] == files[..i] + [files[i]];
  }

  /** A link whose blob is gone although it was there before. */
  predicate Dangles(entries: Entries, p: Path, before: set<Path>, after: set<Path>) {
    p in entries && entries[p].Link? && entries[p].target in before && entries[p].target !in after
  }

  /** Whatever removals fail, no listed entry that is still there, and can be
      read, loses its blob. */
  lemma ListedLinksKeepBlobs(entries: Entries, blobs: set<Path>, env: Env, tagOf: Path -> string, tag: string, p: Path)
    requires p in env.visible && p !in env.unreadAfter
    ensures var tagged := Tagged(entries, env, tagOf, tag);
      !Dangles(EntriesLeft(entries, env, tagged), p, blobs, BlobsLeft(entries, blobs, env, tagged))
  {
    var left := EntriesLeft(entries, env, Tagged(entries, env, tagOf, tag));
    if p in left && left[p].Link? {
      assert p in Seen(left, env);
      assert left[p].target in Referenced(left, env);
    }
  }

  /** The blobs behind removed entries that nothing but a reference can save. */
  function Removable(entries: Entries, blobs: set<Path>, env: Env, tagged: set<Path>): set<Path>
    requires tagged <= entries.Keys
  {
    blobs * Targets(entries, tagged, env.unreadBefore) - env.fails
  }

  /** A listed readable survivor leads to the same blob. */
  ghost predicate IsBacked(left: Entries, env: Env, p: Path)
    requires p in left
  {
    exists q :: q in left && q in env.visible && q !in env.unreadAfter && left[q] == left[p]
  }

  /** No entry at all loses its blob exactly when each one outside the listing, or
      unreadable, that shares a blob with a removed entry shares it with a listed
      readable survivor too (or the blob cannot be removed). */
  lemma NothingDanglesExactly(entries: Entries, blobs: set<Path>, env: Env, tagOf: Path -> string, tag: string)
    ensures var tagged := Tagged(entries, env, tagOf, tag);
      var left := EntriesLeft(entries, env, tagged);
      (forall p :: !Dangles(left, p, blobs, BlobsLeft(entries, blobs, env, tagged))) <==>
      forall p :: p in left && left[p].Link? && (p !in env.visible || p in env.unreadAfter) ==>
        left[p].target in Removable(entries, blobs, env, tagged) ==> IsBacked(left, env, p)
  {
    var tagged := Tagged(entries, env, tagOf, tag);
    var left := EntriesLeft(entries, env, tagged);
    var after := BlobsLeft(entries, blobs, env, tagged);
    forall p | p in left && left[p].Link? && left[p].target in blobs
      ensures Dangles(left, p, blobs, after) <==>
        left[p].target in Targets(entries, tagged, env.unreadBefore) - env.fails &&
        !IsBacked(left, env, p)
    {
      var t := left[p].target;
      if t in Referenced(left, env) {
        var q :| q in Seen(left, env) && left[q].Link? && q !in env.unreadAfter && left[q].target == t;
        assert left[q] == left[p];
      }
      if q :| q in left && q in env.visible && q !in env.unreadAfter && left[q] == left[p] {
        assert q in Seen(left, env);
        assert left[q].target in Referenced(left, env);
      }
    }
  }

  /** When everything can be read and removed: the blobs whose last listed link
      went are gone, and no others. */
  lemma OrphansAreGone(entries: Entries, blobs: set<Path>, env: Env, tagOf: Path -> string, tag: string, b: Path)
    requires env.fails == {} && env.unreadBefore == {} && env.unreadAfter == {} && b in blobs
    ensures var tagged := Tagged(entries, env, tagOf, tag);
      b !in BlobsLeft(entries, blobs, env, tagged) <==>
      (exists p :: p in tagged && entries[p] == Link(b)) &&
      forall p :: p in entries && p in env.visible && entries[p] == Link(b) ==> p in tagged
  {
    var tagged := Tagged(entries, env, tagOf, tag);
    var left := EntriesLeft(entries, env, tagged);
    if b in Targets(entries, tagged, {}) {
      var p :| p in tagged && entries[p].Link? && entries[p].target == b;
      assert entries[p] == Link(b);
    }
    if p :| p in tagged && entries[p] == Link(b) {
      assert entries[p].target in Targets(entries, tagged, {});
    }
    if b in Referenced(left, env) {
      var p :| p in Seen(left, env) && left[p].Link? && left[p].target == b;
      assert entries[p] == Link(b) && p !in tagged;
    }
    if p :| p in entries && p in env.visible && entries[p] == Link(b) && p !in tagged {
      assert p in Seen(left, env);
      assert left[p].target in Referenced(left, env);
    }
  }

  /** A second snapshot with the same blob is not listed: its link is left dangling. */
  lemma OtherSnapshotDangles()
    ensures var entries := map["new/m-Q8.gguf" := Link("blob"), "old/m-Q8.gguf" := Link("blob")];
      var env := Env({"new/m-Q8.gguf"}, {}, {}, {});
      var tagged := Tagged(entries, env, _ => "Q8", "Q8");
      Dangles(EntriesLeft(entries, env, tagged), "old/m-Q8.gguf", {"blob"}, BlobsLeft(entries, {"blob"}, env, tagged))
  {
    var entries := map["new/m-Q8.gguf" := Link("blob"), "old/m-Q8.gguf" := Link("blob")];
    var env := Env({"new/m-Q8.gguf"}, {}, {}, {});
    var tagged := Tagged(entries, env, _ => "Q8", "Q8");
    assert "new/m-Q8.gguf"[0] != "old/m-Q8.gguf"[0];
    assert "new/m-Q8.gguf" in tagged;
    assert entries["new/m-Q8.gguf"].target in Targets(entries, tagged, {});
  }

  /** What goes and what stays, entry by entry and blob by blob: a listed entry with
      the tag goes unless its removal fails; a blob goes exactly when such an entry,
      readable before, leads to it, no listed one that is left and readable does, and
      its removal does not fail. */
  lemma WhatStays(entries: Entries, blobs: set<Path>, env: Env, tagOf: Path -> string, tag: string, p: Path, b: Path)
    ensures var tagged := Tagged(entries, env, tagOf, tag); var left := EntriesLeft(entries, env, tagged);
      (tagged != {} <==> exists q :: q in entries && q in env.visible && tagOf(q) == tag) &&
      (p in left <==> p in entries && !(p in env.visible && tagOf(p) == tag && p !in env.fails)) &&
      (p in left ==> left[p] == entries[p]) &&
      (b in BlobsLeft(entries, blobs, env, tagged) <==>
        b in blobs &&
        (b in env.fails ||
         (exists q :: q in left && q in env.visible && left[q] == Link(b) && q !in env.unreadAfter) ||
         !(exists q :: q in entries && q in env.visible && tagOf(q) == tag && entries[q] == Link(b) && q !in env.unreadBefore)))
  {
    var tagged := Tagged(entries, env, tagOf, tag);
    var left := EntriesLeft(entries, env, tagged);
    if q :| q in entries && q in env.visible && tagOf(q) == tag {
      assert q in tagged;
    }
    if b in Targets(entries, tagged, env.unreadBefore) {
      var q :| q in tagged && entries[q].Link? && q !in env.unreadBefore && entries[q].target == b;
      assert entries[q] == Link(b);
    }
    if q :| q in entries && q in env.visible && tagOf(q) == tag && entries[q] == Link(b) && q !in env.unreadBefore {
      assert q in tagged && entries[q].target in Targets(entries, tagged, env.unreadBefore);
    }
    if b in Referenced(left, env) {
      var q :| q in Seen(left, env) && left[q].Link? && q !in env.unreadAfter && left[q].target == b;
      assert left[q] == Link(b);
    }
    if q :| q in left && q in env.visible && left[q] == Link(b) && q !in env.unreadAfter {
      assert q in Seen(left, env) && left[q].target in Referenced(left, env);
    }
  }
}
