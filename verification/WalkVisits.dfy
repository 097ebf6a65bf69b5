/** What a walk of a directory tree comes to: the visits it makes, what it leaves open, and what
    it leaves of a tree that it removes (src/host/pii_linux.cpp:266-353). */
module WalkVisits {
  import opened Walk

  // ----- a walk that goes well -----

  /** All of a folder: it, what is in it, and it once more. */
  function FolderVisits(path: string, entries: seq<Entry>): seq<Event>
    decreases Size(entries), 1
  {
    [Opened(path), Pre(path)] + Inside(path, entries) + [Closed(path), Post(path)]
  }

  function Inside(path: string, entries: seq<Entry>): seq<Event>
    decreases Size(entries), 0
  {
    if entries == [] then []
    else
      var e, q := entries[0], Join(path, entries[0].name);
      (if Skipped(e.name) then []
       else if e.File? then [Visit(q)]
       else FolderVisits(q, e.entries)) + Inside(path, entries[1..])
  }

  /** Each path fits the buffer, no folder is too deep, and all can be opened. */
  predicate Fits(w: World, path: string, entries: seq<Entry>, depth: nat)
    decreases Size(entries)
  {
    entries != [] ==>
      var e, q := entries[0], Join(path, entries[0].name);
      && Fits(w, path, entries[1..], depth)
      && (!Skipped(e.name) ==>
            && |q| < w.room
            && (e.Folder? ==> e.opens && depth < DEPTH && Fits(w, q, e.entries, depth + 1)))
  }

  ghost predicate NoneFails(w: World) {
    forall e :: !w.fails(e)
  }

  lemma {:induction false} RestVisits(w: World, path: string, entries: seq<Entry>, depth: nat)
    requires NoneFails(w) && Fits(w, path, entries, depth)
    ensures Rest(w, path, entries, depth) == Walk(Inside(path, entries) + [Closed(path), Post(path)], Ok)
    decreases Size(entries)
  {
    if entries == [] {
    } else {
      var e, q, end := entries[0], Join(path, entries[0].name), [Closed(path), Post(path)];
      RestVisits(w, path, entries[1..], depth);
      var tail := Inside(path, entries[1..]);
      if Skipped(e.name) {
        assert [] + tail == tail;
      } else if e.File? {
        assert [Visit(q)] + (tail + end) == [Visit(q)] + tail + end;
      } else {
        RestVisits(w, q, e.entries, depth + 1);
        FolderIs(q, Inside(q, e.entries), tail, end);
        assert Rest(w, path, entries, depth) ==
               Then([Opened(q), Pre(q)], Around(path, Rest(w, q, e.entries, depth + 1), Rest(w, path, entries[1..], depth)));
        hide Rest, Inside, Fits;
      }
    }
  }

  lemma FolderIs(q: string, inside: seq<Event>, tail: seq<Event>, end: seq<Event>)
    ensures [Opened(q), Pre(q)] + (inside + [Closed(q), Post(q)] + (tail + end)) ==
            [Opened(q), Pre(q)] + inside + [Closed(q), Post(q)] + tail + end
  {
  }

  /** When nothing fails a walk makes just the visits of its folder, and ends well. */
  lemma WalkIsVisits(w: World, path: string, entries: seq<Entry>)
    requires NoneFails(w) && Fits(w, path, entries, 1)
    ensures WalkAll(w, path, true, entries) == Walk(FolderVisits(path, entries), Ok)
  {
    RestVisits(w, path, entries, 1);
    assert [Opened(path), Pre(path)] + (Inside(path, entries) + [Closed(path), Post(path)]) == FolderVisits(path, entries);
  }

  // ----- what is left open -----

  function Opens(log: seq<Event>): multiset<string> {
    if log == [] then multiset{}
    else (if log[0].Opened? then multiset{log[0].path} else multiset{}) + Opens(log[1..])
  }

  function Closes(log: seq<Event>): multiset<string> {
    if log == [] then multiset{}
    else (if log[0].Closed? then multiset{log[0].path} else multiset{}) + Closes(log[1..])
  }

  lemma {:induction false} Adds(a: seq<Event>, b: seq<Event>)
    ensures Opens(a + b) == Opens(a) + Opens(b) && Closes(a + b) == Closes(a) + Closes(b)
  {
    if a == [] {
      assert a + b == b;
    } else {
      assert (a + b)[1..] == a[1..] + b;
      Adds(a[1..], b);
    }
  }

  lemma Few(a: Event, b: Event)
    ensures Opens([a]) == (if a.Opened? then multiset{a.path} else multiset{})
    ensures Closes([a]) == (if a.Closed? then multiset{a.path} else multiset{})
    ensures Opens([a, b]) == Opens([a]) + Opens([b]) && Closes([a, b]) == Closes([a]) + Closes([b])
  {
    assert [a] + [b] == [a, b];
    Adds([a], [b]);
    assert Opens([a]) == (if a.Opened? then multiset{a.path} else multiset{}) + Opens([a][1..]);
    assert Closes([a]) == (if a.Closed? then multiset{a.path} else multiset{}) + Closes([a][1..]);
  }

  /** A folder that is opened, and closed at once for not being wanted. */
  lemma Refused(q: string, path: string)
    ensures Opens([Opened(q), Pre(q), Closed(q), Closed(path)]) == multiset{q}
    ensures Closes([Opened(q), Pre(q), Closed(q), Closed(path)]) == multiset{q} + multiset{path}
  {
    assert [Opened(q), Pre(q)] + [Closed(q), Closed(path)] == [Opened(q), Pre(q), Closed(q), Closed(path)];
    Adds([Opened(q), Pre(q)], [Closed(q), Closed(path)]);
    Few(Opened(q), Pre(q));
    Few(Pre(q), Pre(q));
    Few(Closed(q), Closed(path));
    Few(Closed(path), Pre(q));
  }

  /** Each folder is closed as often as it is opened, and the one that was open as well; or a
      path was too long, and more are opened than closed. */
  ghost predicate Balanced(r: Walk, path: string) {
    if r.status == Leak then |Closes(r.log)| <= |Opens(r.log)|
    else Opens(r.log) + multiset{path} == Closes(r.log)
  }

  lemma EndBalanced(path: string, q: string, status: Status)
    requires status != Leak
    ensures Balanced(Walk([Closed(path), Post(path)], status), path) && Balanced(Walk([Closed(path)], status), path)
    ensures Balanced(Walk([Visit(q), Closed(path)], status), path) && Balanced(Walk([], Leak), path)
    ensures Balanced(Walk([Opened(q), Pre(q), Closed(q), Closed(path)], status), path)
  {
    Few(Closed(path), Post(path));
    Few(Post(path), Post(path));
    Few(Visit(q), Closed(path));
    Refused(q, path);
  }

  lemma VisitBalanced(path: string, q: string, tail: Walk)
    requires Balanced(tail, path)
    ensures Balanced(Then([Visit(q)], tail), path)
  {
    Few(Visit(q), Visit(q));
    Adds([Visit(q)], tail.log);
  }

  lemma AroundBalanced(path: string, q: string, sub: Walk, tail: Walk)
    requires Balanced(sub, q) && Balanced(tail, path)
    ensures Balanced(Then([Opened(q), Pre(q)], Around(path, sub, tail)), path)
  {
    Few(Opened(q), Pre(q));
    Few(Pre(q), Pre(q));
    Few(Closed(path), Pre(q));
    Adds(sub.log, tail.log);
    Adds(sub.log, [Closed(path)]);
    Adds([Opened(q), Pre(q)], Around(path, sub, tail).log);
    hide Opens, Closes;
  }

  /** What is left of a walk, from a folder that is open: so it is however the walk ends, and
      whatever fails. */
  lemma {:induction false} RestBalanced(w: World, path: string, entries: seq<Entry>, depth: nat)
    ensures Balanced(Rest(w, path, entries, depth), path)
    decreases Size(entries)
  {
    hide Balanced, Opens, Closes, Skipped, Join, Then;
    if entries == [] {
      EndBalanced(path, path, Ok);
      EndBalanced(path, path, Fail);
    } else {
      var e, q := entries[0], Join(path, entries[0].name);
      var tail := Rest(w, path, entries[1..], depth);
      RestBalanced(w, path, entries[1..], depth);
      EndBalanced(path, q, Fail);
      if e.File? {
        VisitBalanced(path, q, tail);
      } else {
        RestBalanced(w, q, e.entries, depth + 1);
        AroundBalanced(path, q, Rest(w, q, e.entries, depth + 1), tail);
      }
    }
  }

  /** A walk leaves nothing open just when it has not met with a path that is too long. */
  lemma ClosedUnlessLong(w: World, path: string, entries: seq<Entry>)
    ensures var r := WalkAll(w, path, true, entries);
            Opens(r.log) == Closes(r.log) <==> r.status != Leak
  {
    RestBalanced(w, path, entries, 1);
    hide Rest;
    WholeCloses(path, Rest(w, path, entries, 1));
  }

  lemma WholeCloses(path: string, r: Walk)
    requires Balanced(r, path)
    ensures var all := [Opened(path), Pre(path)] + r.log;
            Opens(all) == Closes(all) <==> r.status != Leak
    ensures Opens([Opened(path), Pre(path), Closed(path)]) == Closes([Opened(path), Pre(path), Closed(path)])
  {
    Few(Opened(path), Pre(path));
    Few(Pre(path), Pre(path));
    Few(Closed(path), Pre(path));
    Adds([Opened(path), Pre(path)], r.log);
    Adds([Opened(path), Pre(path)], [Closed(path)]);
    assert [Opened(path), Pre(path)] + [Closed(path)] == [Opened(path), Pre(path), Closed(path)];
    hide Opens, Closes;
    if r.status == Leak {
      assert |Opens([Opened(path), Pre(path)] + r.log)| == 1 + |Opens(r.log)|;
    }
  }

  /** All the paths that are come to fit the buffer. */
  predicate Short(w: World, path: string, entries: seq<Entry>)
    decreases Size(entries)
  {
    entries != [] ==>
      var e, q := entries[0], Join(path, entries[0].name);
      && Short(w, path, entries[1..])
      && (!Skipped(e.name) ==> |q| < w.room && (e.Folder? && e.opens ==> Short(w, q, e.entries)))
  }

  predicate Shallow(entries: seq<Entry>, depth: nat)
    decreases Size(entries)
  {
    entries != [] ==>
      && Shallow(entries[1..], depth)
      && (entries[0].Folder? && !Skipped(entries[0].name) ==> depth < DEPTH && Shallow(entries[0].entries, depth + 1))
  }

  lemma {:induction false} ShortNeverLeaks(w: World, path: string, entries: seq<Entry>, depth: nat)
    requires Short(w, path, entries)
    ensures Rest(w, path, entries, depth).status != Leak
    decreases Size(entries)
  {
    if entries == [] {
    } else {
      var e, q := entries[0], Join(path, entries[0].name);
      ShortNeverLeaks(w, path, entries[1..], depth);
      if !Skipped(e.name) && e.Folder? && e.opens { ShortNeverLeaks(w, q, e.entries, depth + 1); }
    }
  }

  /** In a tree that is not too deep, with no visit that fails, it is met with just when there
      is one, and then the walk ends badly. */
  lemma {:induction false} LongLeaks(w: World, path: string, entries: seq<Entry>, depth: nat)
    requires NoneFails(w) && Shallow(entries, depth)
    ensures Rest(w, path, entries, depth).status == if Short(w, path, entries) then Ok else Leak
    decreases Size(entries)
  {
    if entries == [] {
    } else {
      var e, q := entries[0], Join(path, entries[0].name);
      LongLeaks(w, path, entries[1..], depth);
      if !Skipped(e.name) && e.Folder? && e.opens && |q| < w.room { LongLeaks(w, q, e.entries, depth + 1); }
    }
  }

  /** A folder with one file, whose path is as long as the buffer: the folder stays open. */
  lemma LongStaysOpen(path: string, name: string)
    requires !Skipped(name)
    ensures var w := World(|Join(path, name)|, _ => false);
            var r := WalkAll(w, path, true, [File(name)]);
            r == Walk([Opened(path), Pre(path)], Leak)
  {
  }

  // ----- what is looked at of what visits return -----

  predicate Fails(w: World, e: Event) {
    (e.Pre? || e.Visit? || e.Post?) && w.fails(e)
  }

  /** What failed is no more than the last visit to the folder, which is the only one open. */
  ghost predicate OnlyLast(w: World, log: seq<Event>, path: string, depth: nat) {
    forall e | e in log && Fails(w, e) :: depth == 1 && e == Post(path)
  }

  lemma OnlyParts(w: World, a: seq<Event>, b: seq<Event>, path: string, depth: nat)
    requires OnlyLast(w, a, path, depth) && OnlyLast(w, b, path, depth)
    ensures OnlyLast(w, a + b, path, depth)
  {
  }

  lemma OnlyAround(w: World, q: string, inner: Walk, tail: Walk, path: string, depth: nat)
    requires depth >= 1 && inner.status.Ok? && !w.fails(Pre(q))
    requires OnlyLast(w, inner.log, q, depth + 1) && OnlyLast(w, tail.log, path, depth)
    ensures OnlyLast(w, Then([Opened(q), Pre(q)], Around(path, inner, tail)).log, path, depth)
  {
    OnlyParts(w, inner.log, tail.log, path, depth);
    OnlyParts(w, [Opened(q), Pre(q)], inner.log + tail.log, path, depth);
  }

  lemma OnlyVisit(w: World, q: string, log: seq<Event>, path: string, depth: nat)
    requires !w.fails(Visit(q)) && OnlyLast(w, log, path, depth)
    ensures OnlyLast(w, [Visit(q)] + log, path, depth)
  {
  }

  lemma OnlyEnd(w: World, path: string, depth: nat)
    requires depth == 1 || !w.fails(Post(path))
    ensures OnlyLast(w, [Closed(path), Post(path)], path, depth)
  {
  }

  lemma {:induction false} RestFails(w: World, path: string, entries: seq<Entry>, depth: nat)
    requires depth >= 1
    ensures var r := Rest(w, path, entries, depth);
            r.status.Ok? ==> OnlyLast(w, r.log, path, depth)
    decreases Size(entries)
  {
    hide OnlyLast, Skipped, Join, Fails;
    if entries == [] {
      if depth == 1 || !w.fails(Post(path)) { OnlyEnd(w, path, depth); }
    } else {
      var e, q, tail := entries[0], Join(path, entries[0].name), Rest(w, path, entries[1..], depth);
      RestFails(w, path, entries[1..], depth);
      if e.File? {
        if tail.status.Ok? && !w.fails(Visit(q)) { OnlyVisit(w, q, tail.log, path, depth); }
      } else {
        var inner := Rest(w, q, e.entries, depth + 1);
        RestFails(w, q, e.entries, depth + 1);
        if inner.status.Ok? && tail.status.Ok? && !w.fails(Pre(q)) { OnlyAround(w, q, inner, tail, path, depth); }
      }
    }
  }

  /** Of a walk that ends well the one visit that can have failed is the last to the folder the
      walk was of. */
  lemma OnlyRootFails(w: World, root: string, opens: bool, entries: seq<Entry>)
    ensures var r := WalkAll(w, root, opens, entries);
            r.status.Ok? ==> forall e | e in r.log && Fails(w, e) :: e == Post(root)
  {
    RestFails(w, root, entries, 1);
    hide Rest;
    if opens && !w.fails(Pre(root)) && Rest(w, root, entries, 1).status.Ok? {
      OnlyParts(w, [Opened(root), Pre(root)], Rest(w, root, entries, 1).log, root, 1);
    }
  }

  ghost predicate SameBut(w: World, v: World, root: string) {
    w.room == v.room && forall e | e != Post(root) :: w.fails(e) == v.fails(e)
  }

  lemma {:induction false} RestNotAsked(w: World, v: World, root: string, path: string, entries: seq<Entry>, depth: nat)
    requires SameBut(w, v, root) && |path| >= |root| && (depth > 1 ==> |path| > |root|) && depth >= 1
    ensures Rest(w, path, entries, depth) == Rest(v, path, entries, depth)
    decreases Size(entries)
  {
    hide Skipped, Then, Around;
    if entries == [] {
    } else {
      RestNotAsked(w, v, root, path, entries[1..], depth);
      if entries[0].Folder? {
        RestNotAsked(w, v, root, Join(path, entries[0].name), entries[0].entries, depth + 1);
      }
    }
  }

  /** And what that one returns is not looked at: the walk is the same whether it fails or not. */
  lemma RootPostIsNotAsked(w: World, v: World, root: string, opens: bool, entries: seq<Entry>)
    requires SameBut(w, v, root)
    ensures WalkAll(w, root, opens, entries) == WalkAll(v, root, opens, entries)
  {
    RestNotAsked(w, v, root, root, entries, 1);
    hide Rest;
  }

  // ----- a tree that is removed -----

  /** The paths of a disk, or that a file that was not there was to be removed, or a folder that
      had something in it. */
  datatype Disk = Disk(paths: set<string>) | Stuck

  predicate Under(q: string, path: string) {
    |path| < |q| && q[..|path| + 1] == path + "/"
  }

  /** What `file_visit_remove` and `folder_visit_remove` do. */
  ghost function Do(d: Disk, e: Event): Disk {
    if d.Stuck? then Stuck
    else match e
      case Visit(p) => if p in d.paths then Disk(d.paths - {p}) else Stuck
      case Post(p) => if p in d.paths && (forall q | q in d.paths :: !Under(q, p)) then Disk(d.paths - {p}) else Stuck
      case _ => d
  }

  ghost function DoAll(d: Disk, log: seq<Event>): Disk
    decreases |log|
  {
    if log == [] then d else DoAll(Do(d, log[0]), log[1..])
  }

  lemma {:induction false} DoParts(d: Disk, a: seq<Event>, b: seq<Event>)
    ensures DoAll(d, a + b) == DoAll(DoAll(d, a), b)
    decreases |a|
  {
    if a == [] {
      assert a + b == b;
    } else {
      assert (a + b)[1..] == a[1..] + b;
      DoParts(Do(d, a[0]), a[1..], b);
    }
  }

  lemma DoTwo(d: Disk, a: Event, b: Event)
    ensures DoAll(d, [a]) == Do(d, a)
    ensures DoAll(d, [a, b]) == Do(Do(d, a), b)
  {
    assert [a, b][1..] == [b] && [a][1..] == [] && [b][1..] == [];
    assert DoAll(Do(d, a), [b]) == DoAll(Do(Do(d, a), b), []);
  }

  /** The paths in a folder, near and far. */
  ghost function Within(path: string, entries: seq<Entry>): set<string>
    decreases Size(entries)
  {
    if entries == [] then {}
    else
      var e, q := entries[0], Join(path, entries[0].name);
      (if Skipped(e.name) then {} else if e.File? then {q} else {q} + Within(q, e.entries)) + Within(path, entries[1..])
  }

  predicate NoSlash(name: string) {
    '/' !in name
  }

  /** Names are not used twice in a folder, and have no slash in them. */
  ghost predicate Proper(entries: seq<Entry>)
    decreases Size(entries)
  {
    entries != [] ==>
      && Proper(entries[1..]) && NoSlash(entries[0].name)
      && (forall e | e in entries[1..] :: e.name != entries[0].name)
      && (entries[0].Folder? ==> Proper(entries[0].entries))
  }

  /** A path is one of a name in a folder, or of what is in that. */
  ghost predicate OfName(q: string, path: string, name: string) {
    q == Join(path, name) || Under(q, Join(path, name))
  }

  lemma OfOneName(q: string, path: string, a: string, b: string)
    requires NoSlash(a) && NoSlash(b) && OfName(q, path, a) && OfName(q, path, b)
    ensures a == b
  {
    var n := |path| + 1;
    Named(q, path, a);
    Named(q, path, b);
  }

  lemma Named(q: string, path: string, a: string)
    requires OfName(q, path, a)
    ensures var n := |path| + 1;
            && n + |a| <= |q| && q[n..n + |a|] == a && (n + |a| < |q| ==> q[n + |a|] == '/')
  {
    var j, n := Join(path, a), |path| + 1;
    assert j[n..] == a && j[..n] == path + "/";
    if Under(q, j) {
      assert q[..|j| + 1] == j + "/";
      assert q[n..n + |a|] == q[..|j| + 1][n..n + |a|];
      assert q[n + |a|] == q[..|j| + 1][|j|];
    }
  }

  lemma UnderUp(q: string, path: string, name: string)
    requires OfName(q, path, name)
    ensures Under(q, path)
  {
    var j := Join(path, name);
    assert j[..|path| + 1] == path + "/";
    if Under(q, j) { assert q[..|path| + 1] == q[..|j| + 1][..|path| + 1]; }
  }

  lemma {:induction false} WithinNamed(path: string, entries: seq<Entry>, q: string)
    requires q in Within(path, entries)
    ensures exists k :: 0 <= k < |entries| && OfName(q, path, entries[k].name)
    decreases Size(entries)
  {
    var e, j := entries[0], Join(path, entries[0].name);
    if q in Within(path, entries[1..]) {
      WithinNamed(path, entries[1..], q);
      var k :| 0 <= k < |entries| - 1 && OfName(q, path, entries[1..][k].name);
      assert OfName(q, path, entries[k + 1].name);
    } else if q != j {
      WithinNamed(j, e.entries, q);
      var k :| 0 <= k < |e.entries| && OfName(q, j, e.entries[k].name);
      UnderUp(q, j, e.entries[k].name);
      assert OfName(q, path, entries[0].name);
    } else {
      assert OfName(q, path, entries[0].name);
    }
  }

  /** The paths outside a folder: none of them is in it. */
  ghost predicate Clear(outside: set<string>, path: string) {
    forall q | q in outside :: q != path && !Under(q, path)
  }

  /** Paths that are not of the folder or of any entry of it that is still to come. */
  ghost predicate Apart(out: set<string>, path: string, entries: seq<Entry>) {
    && path !in out
    && forall q, k | q in out && 0 <= k < |entries| :: !OfName(q, path, entries[k].name)
  }

  lemma ClearApart(out: set<string>, path: string, entries: seq<Entry>)
    requires Clear(out, path)
    ensures Apart(out, path, entries)
  {
    forall q, k | q in out && 0 <= k < |entries| ensures !OfName(q, path, entries[k].name) {
      if OfName(q, path, entries[k].name) { UnderUp(q, path, entries[k].name); }
    }
  }

  lemma Strangers(path: string, entries: seq<Entry>, outside: set<string>)
    requires entries != [] && Proper(entries) && Apart(outside, path, entries)
    ensures Clear(outside + {path} + Within(path, entries[1..]), Join(path, entries[0].name))
  {
    var j, name := Join(path, entries[0].name), entries[0].name;
    forall q | q in outside + {path} + Within(path, entries[1..]) ensures !OfName(q, path, name) {
      if OfName(q, path, name) {
        UnderUp(q, path, name);
        if q in Within(path, entries[1..]) {
          WithinNamed(path, entries[1..], q);
          var k :| 0 <= k < |entries| - 1 && OfName(q, path, entries[1..][k].name);
          assert entries[1..][k] in entries[1..];
          ProperAt(entries[1..], k);
          OfOneName(q, path, name, entries[1..][k].name);
        }
      }
    }
  }

  lemma {:induction false} ProperAt(entries: seq<Entry>, k: nat)
    requires Proper(entries) && k < |entries|
    ensures NoSlash(entries[k].name)
    decreases |entries|
  {
    if k == 0 {
    } else {
      ProperAt(entries[1..], k - 1);
    }
  }

  /** A removal takes what is in a folder, each file while it is there. */
  lemma {:induction false} InsideRemoves(path: string, entries: seq<Entry>, outside: set<string>)
    requires Proper(entries) && Clear(outside, path)
    ensures DoAll(Disk(outside + {path} + Within(path, entries)), Inside(path, entries)) == Disk(outside + {path})
    decreases Size(entries), 0
  {
    var all := Disk(outside + {path} + Within(path, entries));
    if entries == [] {
      assert Within(path, entries) == {};
      assert all.paths == outside + {path};
      return;
    }
    var e, q, rest := entries[0], Join(path, entries[0].name), outside + {path} + Within(path, entries[1..]);
    var tail := Inside(path, entries[1..]);
    ClearApart(outside, path, entries);
    Strangers(path, entries, outside);
    InsideRemoves(path, entries[1..], outside);
    hide Do, Clear, Join, Under;
    if Skipped(e.name) {
      assert all.paths == rest;
      assert [] + tail == tail;
    } else if e.File? {
      assert all.paths == rest + {q};
      DoParts(all, [Visit(q)], tail);
      DoTwo(all, Visit(q), Visit(q));
    } else {
      assert all.paths == rest + {q} + Within(q, e.entries);
      DoParts(all, FolderVisits(q, e.entries), tail);
      FolderGoes(q, e.entries, rest);
    }
  }

  /** It takes the whole folder, each folder when there is nothing left in it, and nothing beside:
      a walk with the removal visitors does not fail for any of them. */
  lemma {:induction false} FolderGoes(path: string, entries: seq<Entry>, outside: set<string>)
    requires Proper(entries) && Clear(outside, path)
    ensures DoAll(Disk(outside + {path} + Within(path, entries)), FolderVisits(path, entries)) == Disk(outside)
    decreases Size(entries), 1
  {
    var all := Disk(outside + {path} + Within(path, entries));
    InsideRemoves(path, entries, outside);
    DoTwo(all, Opened(path), Pre(path));
    DoParts(all, [Opened(path), Pre(path)], Inside(path, entries));
    DoParts(all, [Opened(path), Pre(path)] + Inside(path, entries), [Closed(path), Post(path)]);
    var left := Disk(outside + {path});
    DoTwo(left, Closed(path), Post(path));
    assert outside + {path} - {path} == outside;
  }

  // ----- what a removal leaves, whatever fails -----

  /** What did not fail. */
  function Done(w: World, log: seq<Event>): seq<Event> {
    if log == [] then [] else (if w.fails(log[0]) then [] else [log[0]]) + Done(w, log[1..])
  }

  /** The disk after a walk with the removal visitors. It is stuck if the host says that something
      was removed which could not be. */
  ghost function Left(w: World, d: Disk, log: seq<Event>): Disk {
    DoAll(d, Done(w, log))
  }

  lemma {:induction false} DoneParts(w: World, a: seq<Event>, b: seq<Event>)
    ensures Done(w, a + b) == Done(w, a) + Done(w, b)
  {
    if a == [] {
      assert a + b == b;
    } else {
      assert (a + b)[1..] == a[1..] + b;
      DoneParts(w, a[1..], b);
    }
  }

  lemma LeftParts(w: World, d: Disk, a: seq<Event>, b: seq<Event>)
    ensures Left(w, d, a + b) == Left(w, Left(w, d, a), b)
  {
    DoneParts(w, a, b);
    DoParts(d, Done(w, a), Done(w, b));
  }

  lemma {:induction false} StuckStays(log: seq<Event>)
    ensures DoAll(Stuck, log) == Stuck
  {
    if log == [] {
    } else {
      StuckStays(log[1..]);
    }
  }

  lemma LeftOne(w: World, d: Disk, e: Event)
    ensures Left(w, d, []) == d
    ensures Left(w, d, [e]) == if w.fails(e) then d else Do(d, e)
  {
    assert [e] == [e] + [] && [e][1..] == [];
    assert Done(w, []) == [];
    if !w.fails(e) { DoTwo(d, e, e); }
  }

  /** The folders that cannot be opened, and all that is in them. */
  ghost function Shut(path: string, entries: seq<Entry>): set<string> {
    if entries == [] then {}
    else
      var e, q := entries[0], Join(path, entries[0].name);
      (if e.Folder? && !e.opens && !Skipped(e.name) then {q} + Within(q, e.entries) else {}) + Shut(path, entries[1..])
  }

  lemma WithinUnder(path: string, entries: seq<Entry>, q: string)
    requires q in Within(path, entries)
    ensures Under(q, path)
  {
    WithinNamed(path, entries, q);
    var k :| 0 <= k < |entries| && OfName(q, path, entries[k].name);
    UnderUp(q, path, entries[k].name);
  }

  lemma {:induction false} ShutWithin(path: string, entries: seq<Entry>)
    ensures Shut(path, entries) <= Within(path, entries)
    decreases Size(entries)
  {
    if entries == [] {
    } else {
      ShutWithin(path, entries[1..]);
    }
  }

  /** What is left of a folder that is passed over is not of any entry after it. */
  lemma ApartShut(out: set<string>, path: string, entries: seq<Entry>)
    requires entries != [] && entries[0].Folder? && Proper(entries) && Apart(out, path, entries)
    ensures var q := Join(path, entries[0].name);
            Apart(out + ({q} + Within(q, entries[0].entries)), path, entries[1..])
  {
    var q, name, rest := Join(path, entries[0].name), entries[0].name, entries[1..];
    forall x | x in {q} + Within(q, entries[0].entries) ensures OfName(x, path, name) && x != path {
      if x != q { WithinUnder(q, entries[0].entries, x); }
      UnderUp(x, path, name);
    }
    forall x, k | x in {q} + Within(q, entries[0].entries) && 0 <= k < |rest| ensures !OfName(x, path, rest[k].name) {
      assert rest[k] in rest;
      ProperAt(rest, k);
      if OfName(x, path, rest[k].name) { OfOneName(x, path, name, rest[k].name); }
    }
    forall x, k | x in out && 0 <= k < |rest| ensures !OfName(x, path, rest[k].name) {
      assert rest[k] == entries[k + 1];
    }
  }

  lemma ApartOn(out: set<string>, path: string, entries: seq<Entry>)
    requires entries != [] && Apart(out, path, entries)
    ensures Apart(out, path, entries[1..])
  {
    forall x, k | x in out && 0 <= k < |entries| - 1 ensures !OfName(x, path, entries[1..][k].name) {
      assert entries[1..][k] == entries[k + 1];
    }
  }

  /** A folder inside another, that a walk goes on after, is one whose last visit did not fail. */
  lemma {:induction false} InnerPost(w: World, path: string, entries: seq<Entry>, depth: nat)
    requires depth > 1 && Rest(w, path, entries, depth).status.Ok?
    ensures !w.fails(Post(path))
    decreases |entries|
  {
    if entries == [] {
    } else {
      InnerPost(w, path, entries[1..], depth);
    }
  }

  /** What is to be on the disk when what is left of a folder has been walked. */
  ghost predicate Leaves(w: World, path: string, entries: seq<Entry>, out: set<string>, log: seq<Event>) {
    var d := Left(w, Disk(out + {path} + Within(path, entries)), log);
    d.Disk? ==>
      && d.paths == out + Shut(path, entries) + (if w.fails(Post(path)) then {path} else {})
      && (w.fails(Post(path)) || forall q | q in d.paths :: !Under(q, path))
  }

  lemma LeavesEnd(w: World, path: string, out: set<string>)
    requires path !in out
    ensures Leaves(w, path, [], out, [Closed(path), Post(path)])
  {
    var d := Disk(out + {path} + Within(path, []));
    LeftParts(w, d, [Closed(path)], [Post(path)]);
    assert [Closed(path)] + [Post(path)] == [Closed(path), Post(path)];
    LeftOne(w, d, Closed(path));
    LeftOne(w, d, Post(path));
    assert d.paths == out + {path};
    assert out + {path} - {path} == out;
  }

  lemma LeavesSkipped(w: World, path: string, entries: seq<Entry>, out: set<string>, log: seq<Event>)
    requires entries != [] && Skipped(entries[0].name) && Leaves(w, path, entries[1..], out, log)
    ensures Leaves(w, path, entries, out, [] + log)
  {
    assert Within(path, entries) == Within(path, entries[1..]) && Shut(path, entries) == Shut(path, entries[1..]);
    assert [] + log == log;
  }

  lemma LeavesFile(w: World, path: string, entries: seq<Entry>, out: set<string>, log: seq<Event>)
    requires entries != [] && entries[0].File? && !Skipped(entries[0].name)
    requires Proper(entries) && Apart(out, path, entries)
    requires !w.fails(Visit(Join(path, entries[0].name))) && Leaves(w, path, entries[1..], out, log)
    ensures Leaves(w, path, entries, out, [Visit(Join(path, entries[0].name))] + log)
  {
    var q, rest := Join(path, entries[0].name), out + {path} + Within(path, entries[1..]);
    var d := Disk(out + {path} + Within(path, entries));
    Strangers(path, entries, out);
    assert d.paths == rest + {q} && d.paths - {q} == rest;
    LeftParts(w, d, [Visit(q)], log);
    LeftOne(w, d, Visit(q));
    assert Shut(path, entries) == Shut(path, entries[1..]);
    hide Left, Within, Shut, Join, Under;
  }

  lemma LeavesShut(w: World, path: string, entries: seq<Entry>, out: set<string>, log: seq<Event>)
    requires entries != [] && entries[0].Folder? && !entries[0].opens && !Skipped(entries[0].name)
    requires var q := Join(path, entries[0].name);
             Leaves(w, path, entries[1..], out + ({q} + Within(q, entries[0].entries)), log)
    ensures Leaves(w, path, entries, out, log)
  {
    hide Left, Under, Join;
    var q := Join(path, entries[0].name);
    var more, rest := {q} + Within(q, entries[0].entries), Within(path, entries[1..]);
    assert Within(path, entries) == more + rest && Shut(path, entries) == more + Shut(path, entries[1..]);
    assert out + {path} + (more + rest) == out + more + {path} + rest;
    assert out + (more + Shut(path, entries[1..])) == out + more + Shut(path, entries[1..]);
    hide Within, Shut;
  }

  /** A folder that is gone in to goes whole: one that cannot be opened in it would keep it from
      being removed. */
  lemma LeavesInner(w: World, q: string, entries: seq<Entry>, out: set<string>, log: seq<Event>)
    requires Leaves(w, q, entries, out, log) && !w.fails(Post(q))
    ensures var d := Left(w, Disk(out + {q} + Within(q, entries)), log);
            d.Disk? ==> d.paths == out && Shut(q, entries) == {}
  {
    hide Left, Under, Within, Shut;
    var d := Left(w, Disk(out + {q} + Within(q, entries)), log);
    ShutWithin(q, entries);
    forall x | x in Shut(q, entries) ensures Under(x, q) { WithinUnder(q, entries, x); }
    assert d.Disk? ==> forall x | x in Shut(q, entries) :: x in d.paths;
  }

  lemma LeavesFolder(w: World, path: string, entries: seq<Entry>, out: set<string>, inner: seq<Event>, log: seq<Event>)
    requires entries != [] && entries[0].Folder? && entries[0].opens && !Skipped(entries[0].name)
    requires var q := Join(path, entries[0].name);
             && !w.fails(Post(q))
             && Leaves(w, q, entries[0].entries, out + {path} + Within(path, entries[1..]), inner)
    requires Leaves(w, path, entries[1..], out, log)
    ensures var q := Join(path, entries[0].name);
            Leaves(w, path, entries, out, [Opened(q), Pre(q)] + (inner + log))
  {
    var q, rest := Join(path, entries[0].name), out + {path} + Within(path, entries[1..]);
    var d := Disk(out + {path} + Within(path, entries));
    assert d.paths == rest + {q} + Within(q, entries[0].entries);
    assert Shut(path, entries) == Shut(path, entries[1..]);
    LeavesInner(w, q, entries[0].entries, rest, inner);
    LeftEntry(w, d, q, inner + log);
    LeftParts(w, d, inner, log);
    hide Left, Within, Shut, Join, Under;
    if Left(w, d, inner).Stuck? { LeftStuck(w, log); }
  }

  lemma LeftEntry(w: World, d: Disk, q: string, log: seq<Event>)
    ensures Left(w, d, [Opened(q), Pre(q)] + log) == Left(w, d, log)
  {
    LeftParts(w, d, [Opened(q), Pre(q)], log);
    LeftParts(w, d, [Opened(q)], [Pre(q)]);
    assert [Opened(q)] + [Pre(q)] == [Opened(q), Pre(q)];
    LeftOne(w, d, Opened(q));
    LeftOne(w, d, Pre(q));
  }

  lemma LeftStuck(w: World, log: seq<Event>)
    ensures Left(w, Stuck, log) == Stuck
  {
    StuckStays(Done(w, log));
  }

  /** What a walk that goes on to the end of a folder has done with its first entry. */
  lemma RestWhenOk(w: World, path: string, entries: seq<Entry>, depth: nat)
    requires entries != [] && Rest(w, path, entries, depth).status.Ok?
    ensures var e, q, tail := entries[0], Join(path, entries[0].name), Rest(w, path, entries[1..], depth);
            && tail.status.Ok?
            && Rest(w, path, entries, depth).log ==
               if Skipped(e.name) || (e.Folder? && !e.opens) then tail.log
               else if e.File? then [Visit(q)] + tail.log
               else [Opened(q), Pre(q)] + (Rest(w, q, e.entries, depth + 1).log + tail.log)
    ensures var e, q := entries[0], Join(path, entries[0].name);
            !Skipped(e.name) ==> if e.File? then !w.fails(Visit(q)) else e.opens ==> Rest(w, q, e.entries, depth + 1).status.Ok?
  {
    hide Skipped, Join;
  }

  lemma {:induction false} RestLeaves(w: World, path: string, entries: seq<Entry>, depth: nat, out: set<string>)
    requires depth >= 1 && Proper(entries) && Apart(out, path, entries) && Rest(w, path, entries, depth).status.Ok?
    ensures Leaves(w, path, entries, out, Rest(w, path, entries, depth).log)
    decreases Size(entries)
  {
    hide Leaves, Apart, Skipped, Join, Within, Shut, Under, Rest;
    if entries == [] {
      ApartNot(out, path, entries);
      LeavesEnd(w, path, out);
      RestNone(w, path, depth);
      return;
    }
    RestWhenOk(w, path, entries, depth);
    var e, q, rest := entries[0], Join(path, entries[0].name), entries[1..];
    var tail := Rest(w, path, rest, depth).log;
    if e.Folder? && !e.opens && !Skipped(e.name) {
      ApartShut(out, path, entries);
      RestLeaves(w, path, rest, depth, out + ({q} + Within(q, e.entries)));
      LeavesShut(w, path, entries, out, tail);
      return;
    }
    ApartOn(out, path, entries);
    RestLeaves(w, path, rest, depth, out);
    if Skipped(e.name) {
      LeavesSkipped(w, path, entries, out, tail);
      assert [] + tail == tail;
    } else if e.File? {
      LeavesFile(w, path, entries, out, tail);
    } else {
      var base := out + {path} + Within(path, rest);
      Strangers(path, entries, out);
      ClearApart(base, q, e.entries);
      RestLeaves(w, q, e.entries, depth + 1, base);
      InnerPost(w, q, e.entries, depth + 1);
      LeavesFolder(w, path, entries, out, Rest(w, q, e.entries, depth + 1).log, tail);
    }
  }

  lemma RestNone(w: World, path: string, depth: nat)
    ensures Rest(w, path, [], depth).log == [Closed(path), Post(path)]
  {
  }

  lemma ApartNot(out: set<string>, path: string, entries: seq<Entry>)
    requires Apart(out, path, entries)
    ensures path !in out
  {
  }

  /** What is left by a removal that is reported as done: the folders of the root that could not be
      opened, with all that is in them, and then the root as well. So the whole tree has gone just
      when the root's own removal did not fail, which nobody looks at. */
  lemma RemovalLeaves(w: World, root: string, opens: bool, entries: seq<Entry>, outside: set<string>)
    requires Proper(entries) && Clear(outside, root) && WalkAll(w, root, opens, entries).status.Ok?
    requires Left(w, Disk(outside + {root} + Within(root, entries)), WalkAll(w, root, opens, entries).log).Disk?
    ensures var left := Left(w, Disk(outside + {root} + Within(root, entries)), WalkAll(w, root, opens, entries).log).paths;
            && left == outside + Shut(root, entries) + (if w.fails(Post(root)) then {root} else {})
            && (Shut(root, entries) != {} ==> w.fails(Post(root)))
            && (left == outside <==> !w.fails(Post(root)))
  {
    hide Within, Shut, Under;
    var d, rest := Disk(outside + {root} + Within(root, entries)), Rest(w, root, entries, 1);
    ClearApart(outside, root, entries);
    RestLeaves(w, root, entries, 1, outside);
    LeftEntry(w, d, root, rest.log);
    if !w.fails(Post(root)) {
      LeavesInner(w, root, entries, outside, rest.log);
    } else {
      assert root !in outside;
    }
  }

  /** A folder right in this one that cannot be opened. */
  predicate HasShut(entries: seq<Entry>) {
    exists k :: 0 <= k < |entries| && entries[k].Folder? && !entries[k].opens && !Skipped(entries[k].name)
  }

  lemma {:induction false} ShutIff(path: string, entries: seq<Entry>)
    ensures Shut(path, entries) != {} <==> HasShut(entries)
    decreases |entries|
  {
    if entries == [] {
    } else {
      var e, q, rest := entries[0], Join(path, entries[0].name), entries[1..];
      ShutIff(path, rest);
      if e.Folder? && !e.opens && !Skipped(e.name) { assert q in Shut(path, entries); }
      if HasShut(rest) {
        var k :| 0 <= k < |rest| && rest[k].Folder? && !rest[k].opens && !Skipped(rest[k].name);
        assert entries[k + 1] == rest[k];
      }
      assert forall k | 0 < k < |entries| :: entries[k] == rest[k - 1];
    }
  }

  /** With a host that will remove any folder that is empty, a removal that is reported as done has
      left something just when there is a folder right in the root that cannot be opened. */
  lemma RemovedIff(w: World, root: string, opens: bool, entries: seq<Entry>, outside: set<string>)
    requires Proper(entries) && Clear(outside, root) && WalkAll(w, root, opens, entries).status.Ok?
    requires var left := Left(w, Disk(outside + {root} + Within(root, entries)), WalkAll(w, root, opens, entries).log);
             left.Disk? && (w.fails(Post(root)) ==> exists q :: q in left.paths && Under(q, root))
    ensures var left := Left(w, Disk(outside + {root} + Within(root, entries)), WalkAll(w, root, opens, entries).log);
            left.paths != outside <==> HasShut(entries)
  {
    RemovalLeaves(w, root, opens, entries, outside);
    ShutIff(root, entries);
    hide Left, Within, Shut, WalkAll, Proper, HasShut;
  }

  /** A folder with nothing in it but one that cannot be opened: both stay, and it is reported as
      done. */
  lemma ShutStays(root: string, name: string)
    requires !Skipped(name)
    ensures var w, entries := World(|Join(root, name)| + 1, e => e == Post(root)), [Folder(name, false, [])];
            var r := WalkAll(w, root, true, entries);
            r.status.Ok? && Left(w, Disk({root, Join(root, name)}), r.log) == Disk({root, Join(root, name)})
  {
    var w, entries := World(|Join(root, name)| + 1, e => e == Post(root)), [Folder(name, false, [])];
    var rest := Rest(w, root, entries, 1);
    assert Rest(w, root, entries[1..], 1) == Walk([Closed(root), Post(root)], Ok);
    assert rest.log == [Closed(root)] + [Post(root)];
    var d := Disk({root, Join(root, name)});
    LeftEntry(w, d, root, rest.log);
    LeftParts(w, d, [Closed(root)], [Post(root)]);
    LeftOne(w, d, Closed(root));
    LeftOne(w, d, Post(root));
    hide Left;
  }
}
