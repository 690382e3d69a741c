// filestore.go: the directory of message files. A `fault` argument is the
// failure of a system call; each method says what is on disk afterwards.

module FileStorage {
  import opened Types
  import opened Paths
  import opened Maintenance
  import opened Sums

  class FileStore {
    var files: map<string, Bytes>

    constructor ()
      ensures files == map[]
    {
      files := map[];
    }

    /** Writes a temporary file and renames it into place. */
    method StoreMail(mailId: nat, mailbox: string, data: Bytes, fault: bool) returns (r: Result<(string, nat)>)
      modifies this
      ensures fault ==> r == Err(FileError) && files == old(files)
      ensures !fault ==>
        r == Ok((RelPath(mailbox, mailId), |data|)) && files == old(files)[RelPath(mailbox, mailId) := data]
    {
      if fault {
        return Err(FileError);
      }
      var finalPath := RelPath(mailbox, mailId);
      files := files[finalPath := data];
      return Ok((finalPath, |data|));
    }

    /** `fault`: the file is there but cannot be examined or opened. */
    method ReadMail(relPath: string, fault: bool) returns (r: Result<Bytes>)
      ensures r == if HasDotDot(relPath) then Err(FileError)
                   else if relPath !in files then Err(NotFound)
                   else if fault then Err(FileError) else Ok(files[relPath])
    {
      if HasDotDot(relPath) {
        return Err(FileError);
      }
      if relPath !in files {
        return Err(NotFound);
      }
      if fault {
        return Err(FileError);
      }
      return Ok(files[relPath]);
    }

    /** Removing a file that is not there is not an error. */
    method DeleteMail(relPath: string, fault: bool) returns (r: Result<()>)
      modifies this
      ensures r.Ok? <==> !HasDotDot(relPath) && !(fault && relPath in old(files))
      ensures files == if r.Ok? then old(files) - {relPath} else old(files)
    {
      if HasDotDot(relPath) || (fault && relPath in files) {
        return Err(FileError);
      }
      files := files - {relPath};
      return Ok(());
    }

    method MoveMail(oldRelPath: string, newMailbox: string, newMailId: nat, fault: bool) returns (r: Result<string>)
      modifies this
      ensures r.Ok? <==> !HasDotDot(oldRelPath) && oldRelPath in old(files) && !fault
      ensures r.Ok? ==> r.value == RelPath(newMailbox, newMailId)
      ensures r.Ok? ==> files == (old(files) - {oldRelPath})[r.value := old(files)[oldRelPath]]
      ensures r.Err? ==> r.error == FileError && files == old(files)
    {
      if HasDotDot(oldRelPath) || oldRelPath !in files || fault {
        return Err(FileError);
      }
      var content := files[oldRelPath];
      var newRelPath := RelPath(newMailbox, newMailId);
      files := (files - {oldRelPath})[newRelPath := content];
      return Ok(newRelPath);
    }

    /** The files a walk of the base directory visits. */
    method Walk() returns (paths: seq<string>)
      ensures forall p :: p in paths <==> p in files
      ensures forall i, j :: 0 <= i < j < |paths| ==> paths[i] != paths[j]
    {
      paths := [];
      var rest := files.Keys;
      while rest != {}
        invariant forall p :: p in paths <==> p in files && p !in rest
        invariant rest <= files.Keys
        invariant forall i, j :: 0 <= i < j < |paths| ==> paths[i] != paths[j]
      {
        var p :| p in rest;
        rest := rest - {p};
        paths := paths + [p];
      }
    }

    method GetTotalSize() returns (total: nat)
      ensures total == TotalSize(files)
    {
      total := 0;
      var paths := Walk();
      ghost var sizes: map<string, nat> := map[];
      for i := 0 to |paths|
        invariant forall p :: p in sizes <==> p in paths[..i] && IsEml(p)
        invariant forall p :: p in sizes ==> sizes[p] == |files[p]|
        invariant total == Sum(sizes)
      {
        var p := paths[i];
        assert p !in paths[..i];
        if IsEml(p) {
          SumAdd(sizes, p, |files[p]|);
          sizes := sizes[p := |files[p]|];
          total := total + |files[p]|;
        }
      }
      assert paths[..|paths|] == paths;
      assert sizes == EmlSizes(files);
    }

    /** Removes every message file that is not in `validPaths`, stopping at one it cannot remove. */
    method CleanupOrphanedFiles(validPaths: set<string>, stuck: set<string>)
      returns (deletedCount: nat, deletedSize: nat, failed: bool, ghost walk: seq<string>)
      modifies this
      ensures forall p :: p in walk <==> p in old(files)
      ensures Cleaned(files, deletedCount, deletedSize, failed) == CleanFiles(old(files), validPaths, walk, stuck)
    {
      deletedCount, deletedSize, failed := 0, 0, false;
      var paths := Walk();
      walk := paths;
      for i := 0 to |paths|
        invariant Cleaned(files, deletedCount, deletedSize, failed)
             == CleanFiles(old(files), validPaths, paths[..i], stuck)
        invariant forall j :: i <= j < |paths| ==> (paths[j] in files) && files[paths[j]] == old(files)[paths[j]]
      {
        assert paths[..i + 1][..i] == paths[..i];
        var p := paths[i];
        if !failed && IsEml(p) && p !in validPaths {
          var size := |files[p]|;
          if p in stuck {
            failed := true;
          } else {
            files := files - {p};
            deletedCount := deletedCount + 1;
            deletedSize := deletedSize + size;
          }
        }
      }
      assert paths[..|paths|] == paths;
    }
  }
}
