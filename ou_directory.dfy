/**
 * The organizational-unit operations as they run against a live directory
 * connection: a `Directory` object whose entries the add and delete
 * requests change in place, and the methods ouExists, createOU and
 * deleteOU written step by step over it. Each method is proved to end in
 * the state, and with the status, that the functions of OuSpec describe,
 * so every lemma proved there holds of the methods.
 */
module OuDirectory {
  import opened DnPath
  import opened OuSpec

  /**
   * A connection to the directory server with its search base: the
   * organizational-unit entries the existence search below that base can
   * see, and the requests the server answers with an error.
   */
  class Directory {
    const base: string
    var entries: seq<Entry>
    const faults: set<Request>

    constructor(base0: string, entries0: seq<Entry>, faults0: set<Request>)
      ensures base == base0 && entries == entries0 && faults == faults0
    {
      base := base0;
      entries := entries0;
      faults := faults0;
    }

    /** The subtree search for one DN: how many entries it returns, or the server's error. */
    method Search(dn: string) returns (hits: Result<nat>)
      ensures SearchRequest(dn) in faults ==> hits == Err(Transport(SearchRequest(dn)))
      ensures SearchRequest(dn) !in faults ==> hits == Ok(Count(entries, dn))
    {
      if SearchRequest(dn) in faults {
        hits := Err(Transport(SearchRequest(dn)));
      } else {
        hits := Ok(Count(entries, dn));
      }
    }

    /** The add request: the server stores the entry, or answers with an error and stores nothing. */
    method Add(e: Entry) returns (status: Status)
      modifies this
      ensures AddRequest(e.dn) in faults ==> status == Failure(Transport(AddRequest(e.dn))) && entries == old(entries)
      ensures AddRequest(e.dn) !in faults ==> status == Success && entries == old(entries) + [e]
    {
      if AddRequest(e.dn) in faults {
        status := Failure(Transport(AddRequest(e.dn)));
      } else {
        entries := entries + [e];
        status := Success;
      }
    }

    /** The delete request: the server removes the entries with that DN, or answers with an error. */
    method Del(dn: string) returns (status: Status)
      modifies this
      ensures DelRequest(dn) in faults ==> status == Failure(Transport(DelRequest(dn))) && entries == old(entries)
      ensures DelRequest(dn) !in faults ==> status == Success && entries == Without(old(entries), dn)
    {
      if DelRequest(dn) in faults {
        status := Failure(Transport(DelRequest(dn)));
      } else {
        entries := Without(entries, dn);
        status := Success;
      }
    }

    /**
     * ouExists: true for exactly one result, false for none, an error for
     * more than one or when the search itself fails. The search base only
     * scopes the search, which `entries` already reflects.
     */
    method OuExists(dn: string) returns (answer: Result<bool>)
      ensures answer == ExistsAnswer(entries, faults, dn)
      ensures answer == Ok(true) <==> SearchRequest(dn) !in faults && Count(entries, dn) == 1
      ensures answer == Ok(false) <==> SearchRequest(dn) !in faults && Count(entries, dn) == 0
      ensures answer.Err? && SearchRequest(dn) !in faults ==> answer.error == TooManyResults(dn)
    {
      var hits := Search(dn);
      if hits.Err? {
        return Err(hits.error);
      }
      if hits.value == 1 {
        answer := Ok(true);
      } else if hits.value > 1 {
        answer := Err(TooManyResults(dn));
      } else {
        answer := Ok(false);
      }
    }

    /**
     * createOU: refuse a DN outside the base or one that exists; when the
     * parent is not the base and the DN is an `OU=` component, create an
     * absent parent first (asking for its own parents too) or fail; then
     * add the entry named by its leaf `OU=` value. A failed parent search,
     * where the source exits the process, ends the call with that error;
     * so does a leaf that is not an `OU=` component, where the source
     * panics.
     */
    method CreateOu(dn: string, createParents: bool) returns (status: Status)
      modifies this
      decreases |dn|
      ensures var o := CreateOutcome(old(entries), faults, base, dn, createParents);
        status == o.status && entries == old(entries) + o.added
    {
      if !IsWithinBase(dn, base) {
        return Failure(OutsideBase(dn, base));
      }
      var found := OuExists(dn);
      if found.Err? {
        return Failure(found.error);
      }
      if found.value {
        return Failure(AlreadyExists(dn));
      }
      ghost var start := entries;
      ghost var ancestors := ParentReady(start, faults, base, dn, createParents);
      var parent := ParentOf(dn);
      if parent != base && HasOuPrefix(dn) {
        var parentExists := OuExists(parent);
        if parentExists.Err? {
          return Failure(parentExists.error);
        }
        if !parentExists.value {
          if createParents {
            var parentStatus := CreateOu(parent, true);
            assert ancestors == CreateOutcome(start, faults, base, parent, true);
            if parentStatus.Failure? {
              return parentStatus;
            }
          } else {
            return Failure(MissingParent(dn));
          }
        }
      }
      assert ancestors.status == Success && entries == start + ancestors.added;
      var leaf := LeafValue(dn);
      if leaf.None? {
        return Failure(NotAnOu(dn));
      }
      var e := Entry(dn, leaf.value);
      ConcatAssoc(start, ancestors.added, [e]);
      status := Add(e);
    }

    /**
     * deleteOU: delete the entry when the existence search finds exactly
     * one, do nothing when it finds none, and report the search's error
     * otherwise.
     */
    method DeleteOu(dn: string) returns (status: Status)
      modifies this
      ensures var d := DeleteOutcome(old(entries), faults, dn);
        status == d.status && entries == d.remaining
      ensures status.Success? ==> Count(entries, dn) == 0
    {
      DeleteRemovesOnlyTarget(entries, faults, dn);
      var found := OuExists(dn);
      if found.Err? {
        return Failure(found.error);
      }
      if found.value {
        status := Del(dn);
      } else {
        status := Success;
      }
    }
  }
}
