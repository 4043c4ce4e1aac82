/** One directory of the file system, as the temp-file-and-rename protocol sees it, with every
    system call as a step that the environment may make fail.

    Which calls fail is fixed by a `Faults` value: a call of a failing kind raises `OSError`
    and changes nothing, except that `close` releases its descriptor even when it reports an
    error, as POSIX `close` does. */
module Fs {
  /** The kinds of system call the protocol makes. */
  datatype Step = MakeDirs | CreateTemp | WriteData | Sync | CloseFile | RenameFile | RemoveFile

  /** The environment: the kinds of call that fail, and the most bytes one `write` call
      accepts (0 for no limit; a smaller count is a short write, which is not an error). */
  datatype Faults = Faults(failing: set<Step>, chunk: nat)

  /** How much of `remaining` one `write` call accepts. */
  function Accepted(faults: Faults, remaining: nat): (n: nat)
    ensures n <= remaining
    ensures remaining > 0 ==> n > 0
    ensures n < remaining <==> 0 < faults.chunk < remaining
  {
    if faults.chunk == 0 || faults.chunk >= remaining then remaining else faults.chunk
  }

  class Directory {
    /** Whether the directory exists. */
    var present: bool
    /** The files it holds, by name. */
    var files: map<string, string>
    /** The files that have an open descriptor. */
    var open: set<string>

    /** Only existing files are open. */
    predicate Valid()
      reads this
    {
      open <= files.Keys
    }

    constructor (present: bool, files: map<string, string>)
      ensures this.present == present && this.files == files && open == {}
      ensures Valid()
    {
      this.present := present;
      this.files := files;
      open := {};
    }

    /** `mkdir(parents=True, exist_ok=True)`. */
    method MakeDirectory(faults: Faults) returns (ok: bool)
      modifies this
      ensures ok <==> MakeDirs !in faults.failing
      ensures present == (old(present) || ok)
      ensures files == old(files) && open == old(open)
    {
      ok := MakeDirs !in faults.failing;
      if ok {
        present := true;
      }
    }

    /** `mkstemp`: creates `name` empty and opens it.  The environment picks the name; a name
        already taken fails the call like any other error. */
    method CreateTempFile(name: string, faults: Faults) returns (ok: bool)
      modifies this
      ensures ok <==> present && name !in old(files) && CreateTemp !in faults.failing
      ensures ok ==> files == old(files)[name := ""] && open == old(open) + {name}
      ensures !ok ==> files == old(files) && open == old(open)
      ensures present == old(present)
    {
      ok := present && name !in files && CreateTemp !in faults.failing;
      if ok {
        files := files[name := ""];
        open := open + {name};
      }
    }

    /** One `os.write` call on the open file `name`: it appends a prefix of `data` and
        reports how much it took. */
    method WriteOnce(name: string, data: string, faults: Faults) returns (ok: bool, n: nat)
      requires name in files && name in open
      modifies this
      ensures ok <==> WriteData !in faults.failing
      ensures ok ==> n == Accepted(faults, |data|) && files == old(files)[name := old(files)[name] + data[..n]]
      ensures !ok ==> n == 0 && files == old(files)
      ensures open == old(open) && present == old(present)
    {
      ok := WriteData !in faults.failing;
      n := 0;
      if ok {
        n := Accepted(faults, |data|);
        files := files[name := files[name] + data[..n]];
      }
    }

    /** Writes all of `data`, calling `write` again after every short write. */
    method WriteAll(name: string, data: string, faults: Faults) returns (ok: bool)
      requires name in files && name in open
      modifies this
      ensures ok <==> data == [] || WriteData !in faults.failing
      ensures ok ==> files == old(files)[name := old(files)[name] + data]
      ensures !ok ==> files == old(files)
      ensures open == old(open) && present == old(present)
    {
      var written := 0;
      assert old(files)[name] + data[..0] == old(files)[name];
      assert old(files)[name := old(files)[name]] == old(files);
      while written < |data|
        invariant 0 <= written <= |data|
        invariant name in files && name in open
        invariant files == old(files)[name := old(files)[name] + data[..written]]
        invariant written > 0 ==> WriteData !in faults.failing
        invariant open == old(open) && present == old(present)
      {
        var wrote, n := WriteOnce(name, data[written..], faults);
        if !wrote {
          return false;
        }
        SliceAppend(old(files)[name], data, written, n);
        written := written + n;
      }
      assert data[..written] == data;
      ok := true;
    }

    /** `os.fsync`: the data is on disk already in this model; only its failure matters. */
    method SyncFile(name: string, faults: Faults) returns (ok: bool)
      ensures ok <==> Sync !in faults.failing
    {
      ok := Sync !in faults.failing;
    }

    /** `os.close`: the descriptor is released whatever the outcome; closing one that is not
        open fails. */
    method Close(name: string, faults: Faults) returns (ok: bool)
      modifies this
      ensures ok <==> name in old(open) && CloseFile !in faults.failing
      ensures open == old(open) - {name}
      ensures files == old(files) && present == old(present)
    {
      ok := name in open && CloseFile !in faults.failing;
      open := open - {name};
    }

    /** `os.rename`: atomically replaces `target` by `source`. */
    method Rename(source: string, target: string, faults: Faults) returns (ok: bool)
      modifies this
      ensures ok <==> source in old(files) && RenameFile !in faults.failing
      ensures ok && source != target ==> files == (old(files) - {source})[target := old(files)[source]]
      ensures !ok || source == target ==> files == old(files)
      ensures open == old(open) && present == old(present)
    {
      ok := source in files && RenameFile !in faults.failing;
      if ok && source != target {
        files := (files - {source})[target := files[source]];
      }
    }

    /** `os.unlink`. */
    method Remove(name: string, faults: Faults) returns (ok: bool)
      modifies this
      ensures ok <==> name in old(files) && RemoveFile !in faults.failing
      ensures ok ==> files == old(files) - {name}
      ensures !ok ==> files == old(files)
      ensures open == old(open) && present == old(present)
    {
      ok := name in files && RemoveFile !in faults.failing;
      if ok {
        files := files - {name};
      }
    }
  }

  /** Appending the next `n` characters of `d` after its first `w`. */
  lemma SliceAppend(a: string, d: string, w: nat, n: nat)
    requires w + n <= |d|
    ensures a + d[..w] + d[w..][..n] == a + d[..w + n]
  {
    assert d[..w] + d[w..][..n] == d[..w + n];
    assert a + d[..w] + d[w..][..n] == a + (d[..w] + d[w..][..n]);
  }

  /** The files other than `temp` are as they were. */
  ghost predicate OnlyTempDiffers(before: map<string, string>, after: map<string, string>, temp: string) {
    forall n :: n != temp ==> (n in after <==> n in before) && (n in after ==> after[n] == before[n])
  }

  /** None of the calls the protocol needs fails. */
  predicate NoFault(faults: Faults) {
    var f := faults.failing;
    MakeDirs !in f && CreateTemp !in f && WriteData !in f && Sync !in f && CloseFile !in f && RenameFile !in f
  }
}
