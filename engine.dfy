/**
 * The in-browser media engine the splitter drives through its `ffmpeg`
 * handle: a loaded flag and a virtual file system of named byte strings.
 * Every call returns a promise that may reject; which calls reject is
 * the engine's business, so each operation here chooses its outcome
 * freely and states only what holds in each outcome.
 */
module Engine {
  import opened Wrappers

  type Bytes = seq<bv8>

  class Engine {
    /** Whether `load` has resolved. */
    var loaded: bool
    /** The engine's virtual file system. */
    var files: map<string, Bytes>

    /** `new FFmpeg()`: nothing loaded, no files. */
    constructor ()
      ensures !loaded && files == map[]
    {
      loaded := false;
      files := map[];
    }

    /** `load(...)`: fetching and starting the engine core, which may fail. */
    method Load() returns (ok: bool)
      modifies this
      ensures loaded == (old(loaded) || ok)
      ensures files == old(files)
    {
      ok := *;
      if ok {
        loaded := true;
      }
    }

    /** `writeFile(name, data)`: stores `data` under `name`, or rejects; an engine that is not loaded always rejects. */
    method WriteFile(name: string, data: Bytes) returns (ok: bool)
      modifies this
      ensures ok ==> loaded
      ensures loaded == old(loaded)
      ensures files == if ok then old(files)[name := data] else old(files)
    {
      ok := *;
      ok := ok && loaded;
      if ok {
        files := files[name := data];
      }
    }

    /**
     * `exec([... '-i', input, ..., output])`: cuts one stretch of `input`
     * into `output`. It may or may not leave an `output` file, whether it
     * resolves or rejects, and it touches no other file.
     */
    method Exec(input: string, start: real, duration: real, output: string) returns (ok: bool)
      modifies this
      ensures ok ==> loaded
      ensures loaded == old(loaded)
      ensures forall name :: name != output ==> (name in files <==> name in old(files))
      ensures forall name :: name != output && name in files ==> files[name] == old(files)[name]
    {
      ok := *;
      ok := ok && loaded;
      var produced: bool := *;
      if produced && loaded && input in files {
        var data: Bytes := *;
        files := files[output := data];
      }
    }

    /** `readFile(name)`: the stored bytes, or a rejection. */
    method ReadFile(name: string) returns (data: Option<Bytes>)
      ensures data.Some? ==> loaded && name in files && data.value == files[name]
    {
      var ok: bool := *;
      if ok && loaded && name in files {
        data := Some(files[name]);
      } else {
        data := None;
      }
    }

    /** `deleteFile(name)`: removes a stored file, or rejects; a missing file always rejects. */
    method DeleteFile(name: string) returns (ok: bool)
      modifies this
      ensures ok ==> loaded && name in old(files)
      ensures loaded == old(loaded)
      ensures files == if ok then old(files) - {name} else old(files)
    {
      ok := *;
      ok := ok && loaded && name in files;
      if ok {
        files := files - {name};
      }
    }
  }
}
