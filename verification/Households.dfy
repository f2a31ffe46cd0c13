/** The household plan of one chunk of contacts. `keyOf` stands for the address normaliser. */
module Households {
  import opened Prelude
  import opened Text

  datatype Contact = Contact(address: Option<string>, city: Option<string>, province: Option<string>,
                             postal: Option<string>)
  datatype Entry = Entry(key: string, address: Option<string>, city: Option<string>, province: Option<string>,
                             postal: Option<string>)

  type KeyOf = (Option<string>, Option<string>) -> Option<string>

  /** Blank text counts as missing; other text is kept as it is. */
  function NonBlank(s: Option<string>): Option<string> {
    if s.Some? && Trim(s.value) != "" then s else None
  }

  function RowKey(keyOf: KeyOf, c: Contact): Option<string> {
    var key := keyOf(NonBlank(c.address), NonBlank(c.postal));
    if key == Some("") then None else key
  }

  function EntryOf(key: string, c: Contact): Entry {
    Entry(key, NonBlank(c.address), NonBlank(c.city), NonBlank(c.province), NonBlank(c.postal))
  }

  /** Blank parts of an address are asked for as missing ones, others as they are; an empty key is none. */
  lemma BlanksAreMissing(keyOf: KeyOf, c: Contact)
    ensures var blank := (s: Option<string>) => s.None? || AllSpace(s.value);
      var asked := keyOf(if blank(c.address) then None else c.address, if blank(c.postal) then None else c.postal);
      && RowKey(keyOf, c) == (if asked.Some? && asked.value == "" then None else asked)
      && RowKey(keyOf, c) != Some("")
      && forall key :: EntryOf(key, c) == Entry(key, if blank(c.address) then None else c.address,
           if blank(c.city) then None else c.city, if blank(c.province) then None else c.province,
           if blank(c.postal) then None else c.postal)
  {
    forall s: Option<string> ensures NonBlank(s) == if s.None? || AllSpace(s.value) then None else s {
      if s.Some? {
        TrimEmptyExactly(s.value);
      }
    }
  }

  /** `i` is the first contact of the chunk with its key. */
  predicate IsFirst(keyOf: KeyOf, chunk: seq<Contact>, i: nat) {
    && i < |chunk|
    && RowKey(keyOf, chunk[i]).Some?
    && forall j | 0 <= j < i :: RowKey(keyOf, chunk[j]) != RowKey(keyOf, chunk[i])
  }

  /**
   * A key for every contact, and one entry for each distinct key, taken from the first contact that
   * has it, in the order of those first contacts.
   */
  method ChunkHouseholdPlan(keyOf: KeyOf, chunk: seq<Contact>)
    returns (entries: seq<Entry>, keys: seq<Option<string>>, ghost firsts: seq<nat>)
    ensures |keys| == |chunk| && forall i | 0 <= i < |chunk| :: keys[i] == RowKey(keyOf, chunk[i])
    ensures |firsts| == |entries| && forall k, l | 0 <= k < l < |firsts| :: firsts[k] < firsts[l]
    ensures forall k | 0 <= k < |entries| ::
      IsFirst(keyOf, chunk, firsts[k]) && entries[k] == EntryOf(RowKey(keyOf, chunk[firsts[k]]).value, chunk[firsts[k]])
    ensures forall i | IsFirst(keyOf, chunk, i) :: i in firsts
  {
    entries, keys, firsts := [], [], [];
    var seen: set<string> := {};
    for i := 0 to |chunk|
      invariant |keys| == i && forall k | 0 <= k < i :: keys[k] == RowKey(keyOf, chunk[k])
      invariant forall key :: key in seen <==> Some(key) in keys
      invariant |firsts| == |entries| && forall k | 0 <= k < |firsts| :: firsts[k] < i
      invariant forall k, l | 0 <= k < l < |firsts| :: firsts[k] < firsts[l]
      invariant forall k | 0 <= k < |entries| ::
        && IsFirst(keyOf, chunk, firsts[k])
        && entries[k] == EntryOf(RowKey(keyOf, chunk[firsts[k]]).value, chunk[firsts[k]])
      invariant forall j | 0 <= j < i && IsFirst(keyOf, chunk, j) :: j in firsts
    {
      var key := RowKey(keyOf, chunk[i]);
      if key.Some? && key.value !in seen {
        assert forall j | 0 <= j < i :: keys[j] in keys;
        seen := seen + {key.value};
        entries := entries + [EntryOf(key.value, chunk[i])];
        firsts := firsts + [i];
      }
      keys := keys + [key];
    }
  }
}
