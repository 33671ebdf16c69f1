/** The snapshot store of src/lib/snapshotStore.js: an in-memory slot in front of a file.
    The file is abstract: it holds the last document written to it, or nothing when it is
    missing or does not parse, and each write may fail. */
module SnapshotStore {
  import opened Wrappers
  import opened Js

  /** The store's state: `inMemorySnapshot` (null at start) and the file's document. */
  datatype Slot = Slot(memory: Json, file: Option<Json>)

  /** `loadSnapshot`: the in-memory snapshot when it is truthy; otherwise the parsed file,
      which is then kept in memory; null when the file cannot be read or parsed. */
  function LoadStep(s: Slot): (Json, Slot) {
    if Truthy(s.memory) then (s.memory, s)
    else if s.file.Some? then (s.file.value, Slot(s.file.value, s.file))
    else (JNull, s)
  }

  /** `saveSnapshot(snapshot)`: memory is replaced first; `write` is the outcome of the file
      write, whose failure is swallowed. */
  function SaveStep(s: Slot, snapshot: Json, write: Option<string>): Slot {
    Slot(snapshot, if write.None? then Some(snapshot) else s.file)
  }

  class Store {
    var memory: Json
    var file: Option<Json>

    /** A store at start-up over a file holding `document`. */
    constructor(document: Option<Json>)
      ensures memory == JNull && file == document
    {
      memory := JNull;
      file := document;
    }

    /** `loadSnapshot`. */
    method Load() returns (r: Json)
      modifies this
      ensures (r, Slot(memory, file)) == LoadStep(old(Slot(memory, file)))
    {
      if Truthy(memory) {
        return memory;
      }
      if file.None? {
        return JNull;
      }
      memory := file.value;
      r := memory;
    }

    /** `saveSnapshot`: never rejects. */
    method Save(snapshot: Json, write: Option<string>)
      modifies this
      ensures Slot(memory, file) == SaveStep(old(Slot(memory, file)), snapshot, write)
    {
      memory := snapshot;
      if write.None? {
        file := Some(snapshot);
      }
    }
  }

  /** A truthy in-memory snapshot is returned and the file is not consulted. */
  lemma LoadPrefersMemory(s: Slot, other: Option<Json>)
    requires Truthy(s.memory)
    ensures LoadStep(s) == (s.memory, s)
    ensures LoadStep(s.(file := other)).0 == s.memory
  {
  }

  /** A failed read returns null and leaves the empty memory as it was; a successful one
      keeps the parsed document in memory. */
  lemma LoadFromFile(s: Slot)
    requires !Truthy(s.memory)
    ensures s.file.None? ==> LoadStep(s) == (JNull, s)
    ensures s.file.Some? ==> LoadStep(s).0 == s.file.value && LoadStep(s).1.memory == s.file.value
  {
  }

  /** Saving replaces the in-memory snapshot wholesale, whether or not the write succeeds,
      and a later load returns the saved snapshot when it is truthy. */
  lemma SaveThenLoad(s: Slot, snapshot: Json, write: Option<string>)
    requires Truthy(snapshot)
    ensures SaveStep(s, snapshot, write).memory == snapshot
    ensures LoadStep(SaveStep(s, snapshot, write)).0 == snapshot
  {
  }
}
