/** The session store: browser key-value storage holding one serialized
    record `{mode}` under a fixed key, and the abstract outcome of parsing it. */
module Session {
  import opened Types

  /** The storage key of the session record. */
  const SessionKey: string := "sanctuary_session_v1"

  /** Key-value storage that survives reloads. */
  type Storage = map<string, string>

  /** Reads a key; None when it is not present. */
  function GetItem(st: Storage, key: string): Option<string>
  {
    if key in st then Some(st[key]) else None
  }

  /** Writes a key, replacing any previous value. */
  function SetItem(st: Storage, key: string, value: string): (r: Storage)
    ensures GetItem(r, key) == Some(value)
    ensures forall k :: k != key ==> GetItem(r, k) == GetItem(st, k)
  {
    st[key := value]
  }

  /** Deletes a key; other keys are left alone. */
  function RemoveItem(st: Storage, key: string): (r: Storage)
    ensures GetItem(r, key) == None
    ensures forall k :: k != key ==> GetItem(r, k) == GetItem(st, k)
  {
    st - {key}
  }

  /** The JSON text of the record `{mode}` for a role. */
  function Serialize(m: UserMode): (text: string)
    ensures text != []
  {
    "{\"mode\":\"" + ModeName(m) + "\"}"
  }

  /** Different roles are written as different records. */
  lemma SerializeInjective(m1: UserMode, m2: UserMode)
    ensures Serialize(m1) == Serialize(m2) <==> m1 == m2
  {
    if m1 != m2 {
      assert Serialize(m1)[10] == ModeName(m1)[1];
      assert Serialize(m2)[10] == ModeName(m2)[1];
      ModeNameInjective(m1, m2);
    }
  }

  /** What parsing a stored payload and reading its `mode` can give: an
      exception (malformed JSON, or a JSON `null` whose `mode` cannot be
      read), a truthy mode value, or a record whose mode is missing or falsy. */
  datatype ParseOutcome = ParseError | WithMode(mode: ModeValue) | WithoutMode

  /** A parser that reads back what Serialize writes. */
  predicate ReadsBackRecords(parse: string -> ParseOutcome)
  {
    && parse(Serialize(Aliya)) == WithMode(Known(Aliya))
    && parse(Serialize(Admin)) == WithMode(Known(Admin))
  }

  /** A stored value the program looks at: present and not the empty string
      (an empty string is falsy, so it is skipped like a missing one). */
  predicate Truthy(saved: Option<string>)
  {
    saved.Some? && saved.value != ""
  }
}
