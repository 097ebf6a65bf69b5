/** The paths a walk comes to: those of entries that are there, by folders that are there, and none by
    way of a folder's own name for itself or for the one over it (src/host/pii_linux.cpp:304-306). */
module WalkPaths {
  import opened Walk
  import opened WalkVisits

  /** The entry that names come to, one folder after another. */
  ghost predicate Comes(entries: seq<Entry>, names: seq<string>, leaf: Entry)
    decreases |names|
  {
    && |names| > 0 && names[0] != "." && names[0] != ".."
    && if |names| == 1 then leaf in entries && leaf.name == names[0]
       else exists e :: e in entries && e.Folder? && e.name == names[0] && Comes(e.entries, names[1..], leaf)
  }

  function PathOf(path: string, names: seq<string>): string
    decreases |names|
  {
    if names == [] then path else PathOf(path + "/" + names[0], names[1..])
  }

  /** What is done of an entry: a file is visited, and a folder opened, visited before and after, and
      closed. */
  predicate OfEntry(leaf: Entry, q: string, event: Event) {
    if leaf.File? then event == Visit(q)
    else event == Opened(q) || event == Pre(q) || event == Closed(q) || event == Post(q)
  }

  ghost predicate Of(path: string, entries: seq<Entry>, event: Event) {
    exists names, leaf :: OfBy(path, entries, event, names, leaf)
  }

  ghost predicate OfBy(path: string, entries: seq<Entry>, event: Event, names: seq<string>, leaf: Entry) {
    Comes(entries, names, leaf) && OfEntry(leaf, PathOf(path, names), event)
  }

  lemma OfMore(path: string, entries: seq<Entry>, event: Event)
    requires entries != [] && Of(path, entries[1..], event)
    ensures Of(path, entries, event)
  {
    var names, leaf :| OfBy(path, entries[1..], event, names, leaf);
    if |names| > 1 {
      var e :| e in entries[1..] && e.Folder? && e.name == names[0] && Comes(e.entries, names[1..], leaf);
      assert e in entries;
    }
    assert OfBy(path, entries, event, names, leaf);
  }

  lemma OfOne(path: string, entries: seq<Entry>, e: Entry, event: Event)
    requires e in entries && e.name != "." && e.name != ".." && OfEntry(e, Join(path, e.name), event)
    ensures Of(path, entries, event)
  {
    var names := [e.name];
    assert names[1..] == [];
    assert PathOf(path, names) == Join(path, e.name);
    assert OfBy(path, entries, event, names, e);
  }

  lemma OfInner(path: string, entries: seq<Entry>, e: Entry, event: Event)
    requires e in entries && e.Folder? && e.name != "." && e.name != ".." && Of(Join(path, e.name), e.entries, event)
    ensures Of(path, entries, event)
  {
    var rest, leaf :| OfBy(Join(path, e.name), e.entries, event, rest, leaf);
    var names := [e.name] + rest;
    assert names[1..] == rest;
    assert OfBy(path, entries, event, names, leaf);
  }

  /** The other way: it is of the first entry, of something in it, or of one of the rest. */
  lemma OfWhich(path: string, entries: seq<Entry>, event: Event)
    requires entries != [] && Of(path, entries, event)
    ensures var e := entries[0];
            || Of(path, entries[1..], event)
            || (e.name != "." && e.name != ".." && OfEntry(e, Join(path, e.name), event))
            || (e.name != "." && e.name != ".." && e.Folder? && Of(Join(path, e.name), e.entries, event))
  {
    var names, leaf :| OfBy(path, entries, event, names, leaf);
    if |names| == 1 {
      assert names[1..] == [] && PathOf(path, names) == Join(path, leaf.name);
      if leaf in entries[1..] { assert OfBy(path, entries[1..], event, names, leaf); }
    } else {
      var e :| e in entries && e.Folder? && e.name == names[0] && Comes(e.entries, names[1..], leaf);
      if e in entries[1..] {
        assert OfBy(path, entries[1..], event, names, leaf);
      } else {
        assert OfBy(Join(path, e.name), e.entries, event, names[1..], leaf);
      }
    }
  }

  /** What is done inside a folder is done of just the entries that are come to. */
  lemma {:induction false} InsideIff(path: string, entries: seq<Entry>, event: Event)
    ensures event in Inside(path, entries) <==> Of(path, entries, event)
    decreases Size(entries)
  {
    hide Of, OfEntry;
    if entries == [] {
      NothingOf(path, event);
    } else {
      var e := entries[0];
      InsideIff(path, entries[1..], event);
      if e.Folder? { InsideIff(Join(path, e.name), e.entries, event); }
      FolderEvents(e, Join(path, e.name), event);
      if event in Inside(path, entries) {
        if event in Inside(path, entries[1..]) { OfMore(path, entries, event); }
        else if e.Folder? && event in Inside(Join(path, e.name), e.entries) { OfInner(path, entries, e, event); }
        else { OfOne(path, entries, e, event); }
      }
      if Of(path, entries, event) { OfWhich(path, entries, event); }
    }
  }

  lemma NothingOf(path: string, event: Event)
    ensures !Of(path, [], event)
  {
    forall names, leaf ensures !Comes([], names, leaf) {}
  }

  lemma FolderEvents(e: Entry, q: string, event: Event)
    ensures e.File? ==> (event in [Visit(q)] <==> OfEntry(e, q, event))
    ensures e.Folder? ==> (event in FolderVisits(q, e.entries) <==> OfEntry(e, q, event) || event in Inside(q, e.entries))
  {
  }

  /** A walk that goes well does what it does of its folder and of each entry that is come to, of every
      one of them and of nothing else. */
  lemma WalksAll(w: World, path: string, entries: seq<Entry>, event: Event)
    requires NoneFails(w) && Fits(w, path, entries, 1)
    ensures event in WalkAll(w, path, true, entries).log <==>
            event == Opened(path) || event == Pre(path) || event == Closed(path) || event == Post(path) || Of(path, entries, event)
  {
    hide Of, WalkAll, Inside;
    WalkIsVisits(w, path, entries);
    InsideIff(path, entries, event);
  }

  /** And no walk, however it ends, does anything of what is not come to. */
  lemma {:induction false} RestWithin(w: World, path: string, entries: seq<Entry>, depth: nat, event: Event)
    requires event in Rest(w, path, entries, depth).log
    ensures event == Closed(path) || event == Post(path) || Of(path, entries, event)
    decreases Size(entries)
  {
    hide Of;
    if entries != [] {
      var e := entries[0];
      var q := Join(path, e.name);
      if event in Rest(w, path, entries[1..], depth).log {
        RestWithin(w, path, entries[1..], depth, event);
        if Of(path, entries[1..], event) { OfMore(path, entries, event); }
      } else if e.Folder? && event in Rest(w, q, e.entries, depth + 1).log {
        RestWithin(w, q, e.entries, depth + 1, event);
        if Of(q, e.entries, event) { OfInner(path, entries, e, event); } else { OfOne(path, entries, e, event); }
      } else if event != Closed(path) {
        OfOne(path, entries, e, event);
      }
    }
  }

  lemma WalksNoOther(w: World, path: string, opens: bool, entries: seq<Entry>, event: Event)
    requires event in WalkAll(w, path, opens, entries).log
    ensures event == Opened(path) || event == Pre(path) || event == Closed(path) || event == Post(path) || Of(path, entries, event)
  {
    hide Of, Rest;
    if event in Rest(w, path, entries, 1).log { RestWithin(w, path, entries, 1, event); }
  }
}
