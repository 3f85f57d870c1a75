/** The part of the file system the conversion tool and the tier resolver touch:
    which paths are regular files, which are directories, and which directories
    the process cannot create, and why. */
module Disk {

  /** A snapshot of the file system: regular files and directories by path. */
  datatype FsState = FsState(files: set<string>, dirs: set<string>)

  /** `os.path.exists`. */
  predicate Exists(st: FsState, p: string) { p in st.files || p in st.dirs }

  /** Every file and directory of `a` is still there in `b`. */
  predicate Grows(a: FsState, b: FsState) { a.files <= b.files && a.dirs <= b.dirs }

  /** Why a directory cannot be created. */
  datatype Refusal =
    | NoPermission  // PermissionError
    | OtherOSError  // any other OSError: a read-only file system, no space left, a name too long

  /** The directories whose creation fails, each with the error it raises. */
  type Refusals = map<string, Refusal>

  /** How `os.makedirs(p, exist_ok=True)` ends. */
  datatype MakeDirsResult =
    | Ready             // p is a directory now (it was, or it has been created)
    | PermissionDenied  // PermissionError: p is absent and may not be created
    | CreateFailed      // another OSError: p is absent and cannot be created
    | FileInTheWay      // FileExistsError: a regular file sits at p

  /** `os.makedirs(p, exist_ok=True)` on a snapshot, given the directories
      whose creation fails. */
  function MakeDirs(st: FsState, refused: Refusals, p: string): (r: (FsState, MakeDirsResult))
    ensures r.1 == Ready <==> p in st.dirs || (p !in st.files && p !in refused)
    ensures r.1 == FileInTheWay <==> p !in st.dirs && p in st.files
    ensures r.1 == PermissionDenied <==> p !in st.dirs && p !in st.files && p in refused && refused[p] == NoPermission
    ensures r.1 == CreateFailed <==> p !in st.dirs && p !in st.files && p in refused && refused[p] == OtherOSError
    ensures r.1 == Ready ==> p in r.0.dirs && r.0 == FsState(st.files, st.dirs + {p})
    ensures r.1 != Ready ==> r.0 == st
  {
    if p in st.dirs then (st, Ready)
    else if p in st.files then (st, FileInTheWay)
    else if p in refused then (st, if refused[p] == NoPermission then PermissionDenied else CreateFailed)
    else (FsState(st.files, st.dirs + {p}), Ready)
  }

  /** The live file system, updated in place by directory creation and file writes. */
  class Disk {
    var files: set<string>
    var dirs: set<string>
    const refused: Refusals

    constructor (files: set<string>, dirs: set<string>, refused: Refusals)
      ensures this.files == files && this.dirs == dirs && this.refused == refused
    {
      this.files := files;
      this.dirs := dirs;
      this.refused := refused;
    }

    function State(): FsState
      reads this
    {
      FsState(files, dirs)
    }

    /** `os.makedirs(p, exist_ok=True)`. */
    method MakeDirsAt(p: string) returns (r: MakeDirsResult)
      modifies this
      ensures (State(), r) == MakeDirs(old(State()), refused, p)
    {
      if p in dirs {
        r := Ready;
      } else if p in files {
        r := FileInTheWay;
      } else if p in refused {
        r := if refused[p] == NoPermission then PermissionDenied else CreateFailed;
      } else {
        dirs := dirs + {p};
        r := Ready;
      }
    }

    /** Creates (or overwrites) the regular file `p`. */
    method WriteFile(p: string)
      modifies this
      ensures files == old(files) + {p} && dirs == old(dirs)
    {
      files := files + {p};
    }
  }
}
