/**
 * The file-system helpers of the USB gadget configurator
 * (internal/usbgadget/utils.go): `writeIfDifferent` and `ensureSymlink`.
 *
 * The file system is an abstract map from paths to entries. Whether an OS
 * call fails for a reason the map does not show (permissions, I/O, a
 * non-empty directory, ...) is an oracle flag passed in by the caller.
 * Symlinks are not followed: reading a symlink entry as a file fails, and a
 * successful write leaves a regular file at the path.
 */
module UsbGadgetUtils {
  import opened Wrappers

  newtype Byte = b: int | 0 <= b < 256

  const Newline: Byte := 10

  datatype Entry = RegularFile(content: seq<Byte>) | Symlink(target: string) | Directory

  type Entries = map<string, Entry>

  /** The OS calls the helpers issue, recorded in the order issued. */
  datatype FsCall = Stat | ReadFile | WriteFile | Lstat | Readlink | Remove | CreateSymlink

  datatype FsError = WriteFailed | LstatFailed | RemoveFailed | SymlinkFailed

  /** Oracle failures for `writeIfDifferent`'s calls. */
  datatype WriteFaults = WriteFaults(stat: bool, read: bool, write: bool)

  /** Oracle failures for `ensureSymlink`'s calls; `lstat` is an error other than "does not exist". */
  datatype LinkFaults = LinkFaults(lstat: bool, readlink: bool, remove: bool, symlink: bool)

  /** The effect of one helper call: the new entries, the calls issued, and the error returned. */
  datatype FsRun = FsRun(entries: Entries, calls: seq<FsCall>, err: Option<FsError>)

  // ---------------------------------------------------------------- writeIfDifferent

  /**
   * The skip test: byte-equal, or the old content is the new content followed
   * by exactly one newline byte.
   */
  predicate ContentMatches(existing: seq<Byte>, wanted: seq<Byte>)
  {
    existing == wanted || (|existing| == |wanted| + 1 && existing[..|wanted|] == wanted && existing[|wanted|] == Newline)
  }

  lemma ContentMatchesMeaning(existing: seq<Byte>, wanted: seq<Byte>)
    ensures ContentMatches(existing, wanted) <==> existing == wanted || existing == wanted + [Newline]
  {
  }

  /**
   * The newline tolerance is one-directional: wanted content that adds a
   * newline to the existing, or existing content with two trailing newlines, does not match.
   */
  lemma NewlineToleranceOneWay(s: seq<Byte>)
    ensures ContentMatches(s + [Newline], s)
    ensures !ContentMatches(s, s + [Newline])
    ensures !ContentMatches(s + [Newline, Newline], s)
  {
  }

  /** `os.Stat` then `os.ReadFile` both succeed, and this is what was read. */
  function ReadBack(entries: Entries, path: string, f: WriteFaults): Option<seq<Byte>>
  {
    if path in entries && !f.stat && entries[path].RegularFile? && !f.read
    then Some(entries[path].content) else None
  }

  /** `os.WriteFile`, after the calls in `before`. */
  function WriteStep(entries: Entries, path: string, content: seq<Byte>, f: WriteFaults, before: seq<FsCall>): FsRun
  {
    if f.write || (path in entries && entries[path].Directory?)
    then FsRun(entries, before + [WriteFile], Some(WriteFailed))
    else FsRun(entries[path := RegularFile(content)], before + [WriteFile], None)
  }

  function WriteIfDifferentRun(entries: Entries, path: string, content: seq<Byte>, f: WriteFaults): FsRun
  {
    if path in entries && !f.stat then
      if entries[path].RegularFile? && !f.read then
        if ContentMatches(entries[path].content, content) then FsRun(entries, [Stat, ReadFile], None)
        else WriteStep(entries, path, content, f, [Stat, ReadFile])
      else WriteStep(entries, path, content, f, [Stat, ReadFile])
    else WriteStep(entries, path, content, f, [Stat])
  }

  /**
   * Nothing is written exactly when the file could be read and its content
   * matches; a missing or unreadable file is always written. Whatever
   * happens, no other path changes, and without an error the path holds the
   * new content (or a matching one that was left alone).
   */
  lemma WriteIfDifferentSpec(entries: Entries, path: string, content: seq<Byte>, f: WriteFaults)
    ensures var r := WriteIfDifferentRun(entries, path, content, f); var existing := ReadBack(entries, path, f);
      && (WriteFile !in r.calls <==> existing.Some? && (existing.value == content || existing.value == content + [Newline]))
      && (WriteFile !in r.calls ==> r.entries == entries && r.err.None?)
      && (existing.None? ==> WriteFile in r.calls)
      && (forall p :: p != path ==> (p in r.entries <==> p in entries))
      && (forall p :: p != path && p in entries ==> r.entries[p] == entries[p])
      && (r.err.None? ==> path in r.entries && r.entries[path].RegularFile?
                          && ContentMatches(r.entries[path].content, content))
      && (r.err.Some? ==> r.err == Some(WriteFailed) && r.entries == entries)
  {
  }

  // ---------------------------------------------------------------- ensureSymlink

  /** `os.Symlink`, after the calls in `before`: it refuses a path that is taken. */
  function SymlinkStep(entries: Entries, link: string, target: string, f: LinkFaults, before: seq<FsCall>): FsRun
  {
    if f.symlink || link in entries
    then FsRun(entries, before + [CreateSymlink], Some(SymlinkFailed))
    else FsRun(entries[link := Symlink(target)], before + [CreateSymlink], None)
  }

  /** Whether `os.Readlink` fails or names another target. */
  predicate Stale(e: Entry, target: string, f: LinkFaults)
  {
    !e.Symlink? || f.readlink || e.target != target
  }

  /** `ensureSymlink` as written. */
  function EnsureSymlinkRun(entries: Entries, link: string, target: string, f: LinkFaults): FsRun
  {
    if f.lstat then FsRun(entries, [Lstat], Some(LstatFailed))
    else if link in entries then
      if Stale(entries[link], target, f) then
        if f.remove then FsRun(entries, [Lstat, Readlink, Remove], Some(RemoveFailed))
        else SymlinkStep(entries - {link}, link, target, f, [Lstat, Readlink, Remove])
      else SymlinkStep(entries, link, target, f, [Lstat, Readlink])
    else SymlinkStep(entries, link, target, f, [Lstat])
  }

  /** An existing entry is removed only when it is not already a link to `target`. */
  lemma RemovesOnlyStale(entries: Entries, link: string, target: string, f: LinkFaults)
    ensures Remove in EnsureSymlinkRun(entries, link, target, f).calls
      <==> !f.lstat && link in entries && Stale(entries[link], target, f)
  {
  }

  /** An `Lstat` error other than "does not exist" is returned before anything else is tried. */
  lemma LstatFailureStops(entries: Entries, link: string, target: string, f: LinkFaults)
    requires f.lstat
    ensures EnsureSymlinkRun(entries, link, target, f) == FsRun(entries, [Lstat], Some(LstatFailed))
  {
  }

  /**
   * A failed remove is returned without trying to create the link;
   * otherwise (and without an `Lstat` error) the link is always created, the
   * creation's failure is the error returned, and success leaves `link`
   * pointing at `target` with every other path as it was.
   */
  lemma SymlinkAttemptedUnlessEarlyError(entries: Entries, link: string, target: string, f: LinkFaults)
    ensures var r := EnsureSymlinkRun(entries, link, target, f);
      && (r.err == Some(RemoveFailed) <==> Remove in r.calls && f.remove)
      && (r.err == Some(RemoveFailed) ==> CreateSymlink !in r.calls && r.entries == entries)
      && (r.err != Some(LstatFailed) && r.err != Some(RemoveFailed) ==>
            |r.calls| > 0 && r.calls[|r.calls| - 1] == CreateSymlink)
      && (r.err.None? ==> r.entries == entries[link := Symlink(target)])
  {
  }

  /**
   * As written, a link that already points at `target` is kept, and then
   * `os.Symlink` is called on the occupied path, which fails: the call
   * reports an error for the very state it is meant to ensure.
   */
  lemma AlreadyLinkedFails(entries: Entries, link: string, target: string)
    requires link in entries && entries[link] == Symlink(target)
    ensures var r := EnsureSymlinkRun(entries, link, target, LinkFaults(false, false, false, false));
      r.err == Some(SymlinkFailed) && r.calls == [Lstat, Readlink, CreateSymlink]
  {
  }

  /** `ensureSymlink` with the evident intent: a link that already points at `target` is success. */
  function EnsureSymlinkCorrected(entries: Entries, link: string, target: string, f: LinkFaults): FsRun
  {
    if !f.lstat && link in entries && !Stale(entries[link], target, f)
    then FsRun(entries, [Lstat, Readlink], None)
    else EnsureSymlinkRun(entries, link, target, f)
  }

  /**
   * The corrected helper ensures its state: without faults it succeeds and
   * leaves `link` pointing at `target` and every other path alone, and a
   * second call finds the link in place and changes nothing.
   */
  lemma CorrectedIsIdempotent(entries: Entries, link: string, target: string)
    ensures var ok := LinkFaults(false, false, false, false);
      var r := EnsureSymlinkCorrected(entries, link, target, ok);
      && r.err.None?
      && r.entries == entries[link := Symlink(target)]
      && EnsureSymlinkCorrected(r.entries, link, target, ok) == FsRun(r.entries, [Lstat, Readlink], None)
  {
  }

  // ---------------------------------------------------------------- the helpers, call by call

  /** The entries the helpers see, and the calls they have issued so far. */
  class FileSystem {
    var entries: Entries
    ghost var log: seq<FsCall>

    constructor (initial: Entries)
      ensures entries == initial && log == []
    {
      entries := initial;
      log := [];
    }

    method StatOk(path: string, fail: bool) returns (ok: bool)
      modifies this`log
      ensures ok == (path in entries && !fail) && log == old(log) + [Stat]
    {
      log := log + [Stat];
      ok := path in entries && !fail;
    }

    method ReadFileOk(path: string, fail: bool) returns (content: Option<seq<Byte>>)
      modifies this`log
      ensures log == old(log) + [ReadFile]
      ensures content == if path in entries && entries[path].RegularFile? && !fail
                         then Some(entries[path].content) else None
    {
      log := log + [ReadFile];
      content := None;
      if path in entries && !fail {
        match entries[path]
        case RegularFile(c) => content := Some(c);
        case _ =>
      }
    }

    method WriteFileOk(path: string, content: seq<Byte>, fail: bool) returns (ok: bool)
      modifies this
      ensures log == old(log) + [WriteFile]
      ensures ok == !(fail || (path in old(entries) && old(entries)[path].Directory?))
      ensures entries == if ok then old(entries)[path := RegularFile(content)] else old(entries)
    {
      log := log + [WriteFile];
      ok := !(fail || (path in entries && entries[path].Directory?));
      if ok {
        entries := entries[path := RegularFile(content)];
      }
    }

    method LstatOk(path: string, fail: bool) returns (found: bool, failed: bool)
      modifies this`log
      ensures log == old(log) + [Lstat]
      ensures failed == fail && found == (!fail && path in entries)
    {
      log := log + [Lstat];
      failed := fail;
      found := !fail && path in entries;
    }

    method ReadlinkOk(path: string, fail: bool) returns (target: Option<string>)
      modifies this`log
      ensures log == old(log) + [Readlink]
      ensures target == if path in entries && entries[path].Symlink? && !fail
                        then Some(entries[path].target) else None
    {
      log := log + [Readlink];
      target := None;
      if path in entries && !fail {
        match entries[path]
        case Symlink(t) => target := Some(t);
        case _ =>
      }
    }

    method RemoveOk(path: string, fail: bool) returns (ok: bool)
      modifies this
      ensures log == old(log) + [Remove]
      ensures ok == !fail
      ensures entries == if ok then old(entries) - {path} else old(entries)
    {
      log := log + [Remove];
      ok := !fail;
      if ok {
        entries := entries - {path};
      }
    }

    method SymlinkOk(target: string, link: string, fail: bool) returns (ok: bool)
      modifies this
      ensures log == old(log) + [CreateSymlink]
      ensures ok == !(fail || link in old(entries))
      ensures entries == if ok then old(entries)[link := Symlink(target)] else old(entries)
    {
      log := log + [CreateSymlink];
      ok := !(fail || link in entries);
      if ok {
        entries := entries[link := Symlink(target)];
      }
    }

    /** `writeIfDifferent`: stat, read, compare, and write unless the content matches. */
    method WriteIfDifferent(path: string, content: seq<Byte>, f: WriteFaults) returns (err: Option<FsError>)
      modifies this
      ensures var r := WriteIfDifferentRun(old(entries), path, content, f);
        entries == r.entries && err == r.err && log == old(log) + r.calls
    {
      var found := StatOk(path, f.stat);
      if found {
        var existing := ReadFileOk(path, f.read);
        if existing.Some? {
          if ContentMatches(existing.value, content) {
            return None;
          }
        }
      }
      var ok := WriteFileOk(path, content, f.write);
      err := if ok then None else Some(WriteFailed);
    }

    /** `ensureSymlink` as written: replace a stale entry, then create the link. */
    method EnsureSymlink(link: string, target: string, f: LinkFaults) returns (err: Option<FsError>)
      modifies this
      ensures var r := EnsureSymlinkRun(old(entries), link, target, f);
        entries == r.entries && err == r.err && log == old(log) + r.calls
    {
      var present, failed := LstatOk(link, f.lstat);
      if present {
        var current := ReadlinkOk(link, f.readlink);
        if current.None? || current.value != target {
          var removed := RemoveOk(link, f.remove);
          if !removed {
            return Some(RemoveFailed);
          }
        }
      } else if failed {
        return Some(LstatFailed);
      }
      var ok := SymlinkOk(target, link, f.symlink);
      err := if ok then None else Some(SymlinkFailed);
    }
  }
}
