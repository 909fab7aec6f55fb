/** The older local-only journal (js/storage.js): one list under the localStorage key
    'learningJournalEntries', written back whole by every save and delete. */
module LegacyStorage {
  import opened Seqs

  /** An entry as this version saves it: there is no `source` tag. */
  datatype LegacyEntry = LegacyEntry(id: int, title: string, content: string, date: string, time: string)

  function LegacyId(e: LegacyEntry): int {
    e.id
  }

  /** The entry `saveEntry` builds; `now` stands for `Date.now()` and `date`, `time`
      for the locale-formatted clock. */
  function NewLegacyEntry(title: string, content: string, now: int, date: string, time: string): LegacyEntry {
    LegacyEntry(now, title, content, date, time)
  }

  /** The localStorage slot. */
  class LegacyJournal {
    var slot: Option<seq<LegacyEntry>>   // None: the key was never set
    ghost var writes: nat                // number of `setItem` calls so far

    constructor (initial: Option<seq<LegacyEntry>>)
      ensures slot == initial && writes == 0
    {
      slot := initial;
      writes := 0;
    }

    /** `JSON.parse(localStorage.getItem(KEY)) || []`: an absent key reads as the empty list. */
    function StoredEntries(): (es: seq<LegacyEntry>)
      reads this
      ensures slot.None? ==> es == []
      ensures slot.Some? ==> es == slot.value
    {
      slot.GetOr([])
    }

    /** `deleteEntry(id)` with `id` already parsed: keep every entry with another id, in
        order, and write the list back even when nothing was removed. */
    method DeleteEntry(id: int)
      modifies this
      ensures slot == Some(RemoveKey(old(StoredEntries()), LegacyId, id))
      ensures writes == old(writes) + 1
      ensures forall e :: e in StoredEntries() <==> e in old(StoredEntries()) && e.id != id
      ensures (forall e :: e in old(StoredEntries()) ==> e.id != id) ==> StoredEntries() == old(StoredEntries())
    {
      var existingEntries := StoredEntries();
      var updatedEntries := RemoveKey(existingEntries, LegacyId, id);
      if forall e :: e in existingEntries ==> e.id != id {
        RemoveKeyAbsent(existingEntries, LegacyId, id);
      }
      slot := Some(updatedEntries);
      writes := writes + 1;
    }

    /** `saveEntry(title, content)`: `unshift` the new entry onto the stored list and
        write it back. */
    method SaveEntry(title: string, content: string, now: int, date: string, time: string)
      modifies this
      ensures slot == Some([NewLegacyEntry(title, content, now, date, time)] + old(StoredEntries()))
      ensures StoredEntries()[0].id == now && StoredEntries()[1..] == old(StoredEntries())
      ensures writes == old(writes) + 1
    {
      var existingEntries := StoredEntries();
      var newEntry := NewLegacyEntry(title, content, now, date, time);
      existingEntries := [newEntry] + existingEntries;
      slot := Some(existingEntries);
      writes := writes + 1;
    }
  }

  /** Saving an entry and then deleting its id gives back the earlier list, provided the
      timestamp id was not already in use. */
  lemma SaveThenDeleteRestores(before: seq<LegacyEntry>, title: string, content: string, now: int, date: string, time: string)
    requires forall e :: e in before ==> e.id != now
    ensures RemoveKey([NewLegacyEntry(title, content, now, date, time)] + before, LegacyId, now) == before
  {
    RemoveKeyAppend([NewLegacyEntry(title, content, now, date, time)], before, LegacyId, now);
    RemoveKeyAbsent(before, LegacyId, now);
  }

  /** Deleting is idempotent: a second delete of the same id changes nothing. */
  lemma DeleteIdempotent(es: seq<LegacyEntry>, id: int)
    ensures RemoveKey(RemoveKey(es, LegacyId, id), LegacyId, id) == RemoveKey(es, LegacyId, id)
  {
    RemoveKeyAbsent(RemoveKey(es, LegacyId, id), LegacyId, id);
  }

  /** Deleting one id and then another is the same as deleting them in the other order. */
  lemma {:induction false} DeletesCommute(es: seq<LegacyEntry>, a: int, b: int)
    ensures RemoveKey(RemoveKey(es, LegacyId, a), LegacyId, b) == RemoveKey(RemoveKey(es, LegacyId, b), LegacyId, a)
  {
    if es != [] {
      DeletesCommute(es[1..], a, b);
      var x := es[0];
      var ra := RemoveKey(es, LegacyId, a);
      var rb := RemoveKey(es, LegacyId, b);
      if x.id != a {
        assert ra[0] == x && ra[1..] == RemoveKey(es[1..], LegacyId, a);
      }
      if x.id != b {
        assert rb[0] == x && rb[1..] == RemoveKey(es[1..], LegacyId, b);
      }
    }
  }
}
