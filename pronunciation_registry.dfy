/**
 * The word-to-audio-key registry (src/audio/pronunciationRegistry.ts). The global record is an
 * object whose entries `setPronunciations` deletes and refills in place.
 */
module PronunciationRegistry {

  /** One pronunciation as the server sends it: the key of an audio clip already loaded. */
  datatype PronunciationEntry = PronunciationEntry(key: string)

  /** The registry a map yields: every word of the map, each with its entry's key. */
  function KeysTable(m: map<string, PronunciationEntry>): (table: map<string, string>)
    ensures table.Keys == m.Keys
    ensures forall w :: w in m ==> table[w] == m[w].key
  {
    map w | w in m :: m[w].key
  }

  class Registry {
    var entries: map<string, string>

    constructor ()
      ensures entries == map[]
    {
      entries := map[];
    }

    /**
     * `setPronunciations`: delete every current entry, then add one entry per word of the map.
     * The result depends on the map alone, so a repeated call changes nothing.
     */
    method SetPronunciations(m: map<string, PronunciationEntry>)
      modifies this
      ensures entries == KeysTable(m)
      ensures entries.Keys == m.Keys && forall w :: w in m ==> entries[w] == m[w].key
    {
      var stale := entries.Keys;
      while stale != {}
        invariant entries.Keys == stale
        decreases stale
      {
        var k :| k in stale;
        entries := entries - {k};
        stale := stale - {k};
      }
      var pending := m.Keys;
      while pending != {}
        invariant pending <= m.Keys
        invariant entries == map w | w in m.Keys - pending :: m[w].key
        decreases pending
      {
        var w :| w in pending;
        entries := entries[w := m[w].key];
        pending := pending - {w};
      }
    }
  }
}
