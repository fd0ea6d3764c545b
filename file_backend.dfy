/** The development server's store: one JSON document `data.json` on local disk. */
module FileBackend {
  import opened RecordStore
  import Collections

  /** What the data file holds: nothing, something that cannot be read or parsed, or a document. */
  datatype FileState = Missing | Unreadable | Holds(document: Snapshot)

  /** `readData()`: the document, or empty collections when the file is missing or unreadable. */
  function Loaded(f: FileState): (s: Snapshot)
    ensures (f.Holds? ==> RecordStore.Wf(f.document)) ==> RecordStore.Wf(s)
  {
    Collections.EmptyWf();
    if f.Holds? then f.document else EmptySnapshot
  }

  class DataFile {
    var state: FileState
    /** Whether `fs.writeFileSync` throws (permissions, a full disk). */
    const writeFails: bool

    ghost predicate Valid()
      reads this
    {
      state.Holds? ==> RecordStore.Wf(state.document)
    }

    constructor (state: FileState, writeFails: bool)
      requires state.Holds? ==> RecordStore.Wf(state.document)
      ensures Valid() && this.state == state && this.writeFails == writeFails
    {
      this.state := state;
      this.writeFails := writeFails;
    }

    /** `readData`: a missing file and a file that fails to read or parse both give the empty snapshot. */
    method ReadData() returns (s: Snapshot)
      requires Valid()
      ensures RecordStore.Wf(s)
      ensures state.Holds? ==> s == state.document
      ensures !state.Holds? ==> s == EmptySnapshot
    {
      Collections.EmptyWf();
      match state
      case Holds(document) => s := document;
      case _ => s := EmptySnapshot;
    }

    /** `writeData`: the file holds `s` afterwards, or, when the write throws, is left as it was. */
    method WriteData(s: Snapshot) returns (ok: bool)
      requires RecordStore.Wf(s)
      modifies this`state
      ensures ok == !writeFails
      ensures state == if ok then Holds(s) else old(state)
      ensures Valid() <== old(Valid())
    {
      if writeFails {
        return false;
      }
      state := Holds(s);
      return true;
    }
  }
}
