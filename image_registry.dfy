/**
 * The image-id-to-texture-key registry (src/images/imageRegistry.ts). The global record is an
 * object whose entries `setImages` deletes and refills in place.
 */
module ImageRegistry {

  class Registry {
    var entries: map<string, string>

    constructor ()
      ensures entries == map[]
    {
      entries := map[];
    }

    /** `setImages`: delete every current entry, then copy every entry of the map. */
    method SetImages(m: map<string, string>)
      modifies this
      ensures entries == m
    {
      var stale := entries.Keys;
      while stale != {}
        invariant entries.Keys == stale
        decreases stale
      {
        var k :| k in stale;
        entries := entries - {k};
        stale := stale - {k};
      }
      var pending := m.Keys;
      while pending != {}
        invariant pending <= m.Keys
        invariant entries == map id | id in m.Keys - pending :: m[id]
        decreases pending
      {
        var id :| id in pending;
        entries := entries[id := m[id]];
        pending := pending - {id};
      }
      assert m.Keys - pending == m.Keys;
    }
  }
}
