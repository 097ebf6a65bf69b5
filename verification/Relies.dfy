/** The rest of `relies-of` (cmd/relies.lisp:242-291): what is part of a local
    subroutine, the places where a function goes by more than is declared of what
    it calls, and where to look for the instruction that does. Both searches pop
    from an explicit list of what is still to be looked at. */
module Relies {
  import opened Liveness
  import opened Options

  /** What is declared of what is called. */
  datatype Called = Called(name: string, trashes: Regs, takes: Regs, gives: Regs)

  /** One line of the report: which instruction, what was called, the registers, and a reader. */
  datatype Place = Place(at: nat, name: string, bad: Regs, reader: Option<nat>)

  // ----- what can be got to -----

  ghost predicate ReachedBy(next: seq<seq<nat>>, roots: seq<nat>, p: seq<nat>, at: nat) {
    IsPath(next, p) && p[0] in roots && p[|p| - 1] == at
  }

  ghost predicate Reachable(next: seq<seq<nat>>, roots: seq<nat>, at: nat) {
    exists p :: ReachedBy(next, roots, p, at)
  }

  lemma ReachRoot(next: seq<seq<nat>>, roots: seq<nat>, at: nat)
    requires at in roots && at < |next|
    ensures Reachable(next, roots, at)
  {
    assert ReachedBy(next, roots, [at], at);
  }

  lemma ReachNext(next: seq<seq<nat>>, roots: seq<nat>, at: nat, to: nat)
    requires Reachable(next, roots, at) && to < |next| && at < |next| && to in next[at]
    ensures Reachable(next, roots, to)
  {
    var p :| ReachedBy(next, roots, p, at);
    assert ReachedBy(next, roots, p + [to], to);
  }

  /** What is marked, or still to be looked at, has all the roots in it and is closed. */
  ghost predicate Closing(next: seq<seq<nat>>, roots: seq<nat>, marked: set<nat>, todo: seq<nat>)
    requires forall i | i in marked :: i < |next|
  {
    && (forall r | r in roots :: r in marked || r in todo)
    && (forall i, j | i in marked && j in next[i] :: j in marked || j in todo)
  }

  lemma {:induction false} ClosedHasPath(next: seq<seq<nat>>, roots: seq<nat>, marked: set<nat>, p: seq<nat>)
    requires forall i | i in marked :: i < |next|
    requires Closing(next, roots, marked, [])
    requires IsPath(next, p) && p[0] in roots
    ensures p[|p| - 1] in marked
    decreases |p|
  {
    if |p| <= 1 {
    } else {
      var q := p[..|p| - 1];
      ClosedHasPath(next, roots, marked, q);
      assert p[|p| - 1] in next[p[|p| - 2]];
    }
  }

  function Below(n: nat): (s: set<nat>)
    ensures forall i: nat :: i in s <==> i < n
  {
    var numbers := seq(n, (i: nat) => i);
    assert forall i: nat | i < n :: i in numbers by {
      forall i: nat | i < n ensures i in numbers { assert numbers[i] in numbers; }
    }
    set i: nat | i in numbers
  }

  lemma {:induction false} BelowSize(n: nat)
    ensures |Below(n)| == n
  {
    if n == 0 {
      assert Below(0) == {};
    } else {
      BelowSize(n - 1);
      assert Below(n) == Below(n - 1) + {n - 1};
    }
  }

  ghost function Marked(inner: seq<bool>): set<nat> {
    set i: nat | i < |inner| && inner[i]
  }

  lemma MoreMarked(inner: seq<bool>, at: nat)
    requires at < |inner| && !inner[at]
    ensures Marked(inner[at := true]) == Marked(inner) + {at}
    ensures |Marked(inner)| < |Marked(inner[at := true])| <= |inner|
  {
    var now := inner[at := true];
    assert Marked(now) == Marked(inner) + {at};
    Smaller(Marked(now), Below(|inner|));
    BelowSize(|inner|);
  }

  /** What the worklist keeps: what is marked or listed can be got to, and nothing is lost. */
  ghost predicate Looking(next: seq<seq<nat>>, roots: seq<nat>, inner: seq<bool>, todo: seq<nat>) {
    && |inner| == |next| && InRange(todo, |next|)
    && (forall i | i in todo :: Reachable(next, roots, i))
    && (forall i | i in Marked(inner) :: Reachable(next, roots, i))
    && Closing(next, roots, Marked(inner), todo)
  }

  lemma LookStart(next: seq<seq<nat>>, roots: seq<nat>, inner: seq<bool>)
    requires InRange(roots, |next|) && |inner| == |next| && forall i | 0 <= i < |inner| :: !inner[i]
    ensures Looking(next, roots, inner, roots)
  {
    forall r | r in roots ensures Reachable(next, roots, r) { ReachRoot(next, roots, r); }
  }

  lemma LookSeen(next: seq<seq<nat>>, roots: seq<nat>, inner: seq<bool>, less: seq<nat>, at: nat)
    requires Looking(next, roots, inner, less + [at]) && at < |next| && inner[at]
    ensures Looking(next, roots, inner, less)
  {
    hide Reachable;
    var todo := less + [at];
    forall i | i in less ensures i < |next| { assert i in todo; }
    assert at in Marked(inner);
    forall k | 0 <= k < |less| ensures less[k] < |next| { assert todo[k] == less[k]; }
    assert forall x :: x in todo <==> x in less || x == at;
  }

  lemma ClosingOn(next: seq<seq<nat>>, roots: seq<nat>, marked: set<nat>, less: seq<nat>, at: nat)
    requires at < |next| && forall i | i in marked :: i < |next|
    requires Closing(next, roots, marked, less + [at])
    ensures Closing(next, roots, marked + {at}, less + next[at])
  {
    assert forall x :: x in less + [at] <==> x in less || x == at;
    assert forall x :: x in less + next[at] <==> x in less || x in next[at];
  }

  lemma LookMark(next: seq<seq<nat>>, roots: seq<nat>, inner: seq<bool>, less: seq<nat>, at: nat)
    requires Looking(next, roots, inner, less + [at]) && at < |next| && !inner[at]
    requires InRange(next[at], |next|)
    ensures Looking(next, roots, inner[at := true], less + next[at])
  {
    var todo, now := less + [at], less + next[at];
    assert at in todo;
    forall to | to in next[at] ensures Reachable(next, roots, to) { ReachNext(next, roots, at, to); }
    ClosingOn(next, roots, Marked(inner), less, at);
    MoreMarked(inner, at);
    hide Reachable, Closing, Marked;
    forall k | 0 <= k < |now| ensures now[k] < |next| && Reachable(next, roots, now[k]) {
      if k < |less| { assert todo[k] == less[k] && todo[k] in todo; }
    }
  }

  lemma LookEnd(next: seq<seq<nat>>, roots: seq<nat>, inner: seq<bool>)
    requires Looking(next, roots, inner, [])
    ensures forall at: nat | at < |inner| :: inner[at] <==> Reachable(next, roots, at)
  {
    forall at: nat | at < |inner| && Reachable(next, roots, at) ensures inner[at] {
      var p :| ReachedBy(next, roots, p, at);
      ClosedHasPath(next, roots, Marked(inner), p);
    }
  }

  /** The worklist that marks `inner`, all that can be got to from where such calls go. */
  method InnerOf(next: seq<seq<nat>>, roots: seq<nat>) returns (result: seq<bool>)
    requires forall at | 0 <= at < |next| :: InRange(next[at], |next|)
    requires InRange(roots, |next|)
    ensures |result| == |next|
    ensures forall at: nat | at < |result| :: result[at] <==> Reachable(next, roots, at)
  {
    var inner := new bool[|next|](_ => false);
    var todo := roots;
    LookStart(next, roots, inner[..]);
    while todo != []
      invariant Looking(next, roots, inner[..], todo)
      decreases |next| - |Marked(inner[..])|, |todo|
    {
      var at := todo[|todo| - 1];
      ghost var was := inner[..];
      assert todo == todo[..|todo| - 1] + [at];
      todo := todo[..|todo| - 1];
      assert InRange(next[at], |next|);
      if was[at] { LookSeen(next, roots, was, todo, at); } else { LookMark(next, roots, was, todo, at); }
      if !inner[at] {
        MoreMarked(was, at);
        inner[at] := true;
        assert inner[..] == was[at := true];
        todo := todo + next[at];
      }
    }
    result := inner[..];
    LookEnd(next, roots, result);
  }

  // ----- the reader -----

  /** A path on from a call to the first instruction on it that reads `one`, not written on the way. */
  ghost predicate ReadBy(c: Code, at: nat, one: nat, p: seq<nat>)
    requires c.Valid() && at < |c.next|
  {
    && IsPath(c.next, p) && p[0] in c.next[at] && Unwritten(c, p, one)
    && one in c.flows[p[|p| - 1]].read
  }

  ghost predicate CleanPath(c: Code, at: nat, one: nat, p: seq<nat>)
    requires c.Valid() && at < |c.next|
  {
    && IsPath(c.next, p) && p[0] in c.next[at]
    && forall i | 0 <= i < |p| - 1 :: one !in c.flows[p[i]].written && one !in c.flows[p[i]].read
  }

  ghost predicate ComeTo(c: Code, at: nat, one: nat, to: nat)
    requires c.Valid() && at < |c.next|
  {
    exists p :: CleanPath(c, at, one, p) && p[|p| - 1] == to
  }

  /** What the search keeps while it has found none. */
  ghost predicate Seeing(c: Code, at: nat, one: nat, seen: set<nat>, todo: seq<nat>)
    requires c.Valid() && at < |c.next|
  {
    && InRange(todo, |c.next|)
    && (forall i | i in todo :: ComeTo(c, at, one, i))
    && (forall i | i in seen :: i < |c.next| && one !in c.flows[i].read)
    && (forall i | i in c.next[at] :: i in seen || i in todo)
    && (forall i, j | i in seen && one !in c.flows[i].written && j in c.next[i] :: j in seen || j in todo)
  }

  lemma {:induction false} SeenAll(c: Code, at: nat, one: nat, seen: set<nat>, p: seq<nat>)
    requires c.Valid() && at < |c.next| && Seeing(c, at, one, seen, [])
    requires IsPath(c.next, p) && p[0] in c.next[at] && Unwritten(c, p, one)
    ensures p[|p| - 1] in seen
    decreases |p|
  {
    if |p| <= 1 {
    } else {
      var q := p[..|p| - 1];
      SeenAll(c, at, one, seen, q);
      assert p[|p| - 1] in c.next[p[|p| - 2]] && one !in c.flows[p[|p| - 2]].written;
    }
  }

  lemma ComeOn(c: Code, at: nat, one: nat, via: nat, to: nat)
    requires c.Valid() && at < |c.next| && via < |c.next| && to in c.next[via]
    requires ComeTo(c, at, one, via) && one !in c.flows[via].written && one !in c.flows[via].read
    ensures ComeTo(c, at, one, to)
  {
    assert InRange(c.next[via], |c.flows|);
    var p :| CleanPath(c, at, one, p) && p[|p| - 1] == via;
    var q := p + [to];
    assert forall i | 0 <= i < |q| - 1 :: q[i] == p[i];
    assert CleanPath(c, at, one, q) && q[|q| - 1] == to;
  }

  lemma SeeStart(c: Code, at: nat, one: nat)
    requires c.Valid() && at < |c.next|
    ensures Seeing(c, at, one, {}, c.next[at])
  {
    assert InRange(c.next[at], |c.flows|);
    forall to | to in c.next[at] ensures ComeTo(c, at, one, to) {
      assert CleanPath(c, at, one, [to]) && [to][0] == to;
    }
  }

  lemma SeeOn(c: Code, at: nat, one: nat, seen: set<nat>, todo: seq<nat>, to: nat)
    requires c.Valid() && at < |c.next| && Seeing(c, at, one, seen, todo)
    requires todo != [] && to == todo[|todo| - 1] && one !in c.flows[to].read
    ensures to in seen ==> Seeing(c, at, one, seen, todo[..|todo| - 1])
    ensures to !in seen && one in c.flows[to].written ==> Seeing(c, at, one, seen + {to}, todo[..|todo| - 1])
    ensures to !in seen && one !in c.flows[to].written ==>
              Seeing(c, at, one, seen + {to}, todo[..|todo| - 1] + c.next[to])
  {
    var less := todo[..|todo| - 1];
    assert todo == less + [to];
    if to !in seen && one !in c.flows[to].written {
      assert InRange(c.next[to], |c.flows|);
      forall on | on in c.next[to] ensures ComeTo(c, at, one, on) { ComeOn(c, at, one, to, on); }
    }
  }

  lemma SeeEnd(c: Code, at: nat, one: nat, seen: set<nat>)
    requires c.Valid() && at < |c.next| && Seeing(c, at, one, seen, [])
    ensures !exists p :: ReadBy(c, at, one, p)
  {
    if exists p :: ReadBy(c, at, one, p) {
      var p :| ReadBy(c, at, one, p);
      SeenAll(c, at, one, seen, p);
      assert false;
    }
  }

  /** The search for an instruction that reads `one` after the call at `at`: it is found
      exactly when there is one that can be come to before `one` is written. */
  method FindReader(c: Code, at: nat, one: nat) returns (reader: Option<nat>)
    requires c.Valid() && at < |c.next|
    ensures reader.Some? ==> reader.value < |c.flows| && one in c.flows[reader.value].read
    ensures reader.Some? ==> ComeTo(c, at, one, reader.value)
    ensures reader.None? ==> !exists p :: ReadBy(c, at, one, p)
  {
    var seen: set<nat> := {};
    var todo := c.next[at];
    SeeStart(c, at, one);
    while todo != []
      invariant seen <= Below(|c.next|)
      invariant Seeing(c, at, one, seen, todo)
      decreases Below(|c.next|) - seen, |todo|
    {
      var to := todo[|todo| - 1];
      if to !in seen && one in c.flows[to].read {
        return Some(to);
      }
      SeeOn(c, at, one, seen, todo, to);
      todo := todo[..|todo| - 1];
      if to !in seen {
        seen := seen + {to};
        if one !in c.flows[to].written {
          todo := todo + c.next[to];
        }
      }
    }
    SeeEnd(c, at, one, seen);
    reader := None;
  }

  // ----- the report -----

  /** What does not come back has nothing read after it, and a walk that calls back is its own affair. */
  predicate Exempt(name: string) {
    name == "sys/pii/exit" || name == "gui/view/forward_tree"
  }

  /** The registers a call is counted on for and should not be: wanted after it, declared
      trashed by it, and not given by it. */
  ghost function Counted(c: Code, calls: seq<Option<Called>>, at: nat): Regs
    requires c.Valid() && |calls| == |c.flows| && at < |calls|
  {
    match calls[at]
    case None => {}
    case Some(called) =>
      if Exempt(called.name) then {}
      else set r | r in called.trashes && r !in called.gives && WantedAfter(c, at, r)
  }

  ghost predicate IsLeast(m: nat, s: Regs) {
    m in s && forall x | x in s :: m <= x
  }

  lemma LeastExists(s: Regs)
    requires s != {}
    ensures exists m :: IsLeast(m, s)
  {
    var m :| m in s;
    if s == {m} {
      assert IsLeast(m, s);
    } else {
      var rest := s - {m};
      assert s == rest + {m} && rest != {};
      LeastExists(rest);
      var k :| IsLeast(k, rest);
      assert IsLeast(if k <= m then k else m, s);
    }
  }

  /** The lowest bit of a mask. */
  function Lowest(s: Regs): (m: nat)
    requires s != {}
    ensures IsLeast(m, s)
  {
    LeastExists(s);
    var m :| m in s && forall x | x in s :: m <= x;
    m
  }

  /** A line of the report says what it should, and where to look. */
  ghost predicate Tells(c: Code, calls: seq<Option<Called>>, place: Place)
    requires c.Valid() && |calls| == |c.flows|
  {
    && place.at < |calls| && calls[place.at].Some? && place.name == calls[place.at].value.name
    && place.bad == Counted(c, calls, place.at) && place.bad != {}
    && match place.reader
       case Some(to) => to < |c.flows| && Lowest(place.bad) in c.flows[to].read
                        && ComeTo(c, place.at, Lowest(place.bad), to)
       case None => !exists p :: ReadBy(c, place.at, Lowest(place.bad), p)
  }

  lemma AfterIsWanted(c: Code, live: seq<Regs>, at: nat)
    requires c.Valid() && |live| == |c.flows| && at < |live|
    requires forall i, r | 0 <= i < |live| :: r in live[i] <==> Wanted(c, i, r)
    ensures forall r :: r in After(c, live, at) <==> WantedAfter(c, at, r)
  {
    assert InRange(c.next[at], |c.flows|);
  }

  /** The report so far: the places come in order, one for every call before `to` a register is
      counted on over, and no other. */
  ghost predicate Reported(c: Code, calls: seq<Option<Called>>, found: seq<Place>, to: nat)
    requires c.Valid() && |calls| == |c.flows| && to <= |calls|
  {
    && (forall i | 0 <= i < |found| :: Tells(c, calls, found[i]) && found[i].at < to)
    && (forall i, j | 0 <= i < j < |found| :: found[i].at < found[j].at)
    && (forall at: nat | at < to && Counted(c, calls, at) != {} :: Listed(found, at))
  }

  ghost predicate Listed(found: seq<Place>, at: nat) {
    exists i :: 0 <= i < |found| && found[i].at == at
  }

  lemma ReportOn(c: Code, calls: seq<Option<Called>>, found: seq<Place>, place: Place)
    requires c.Valid() && |calls| == |c.flows| && place.at < |calls|
    requires Reported(c, calls, found, place.at) && Tells(c, calls, place)
    ensures Reported(c, calls, found + [place], place.at + 1)
  {
    hide Tells, Counted;
    var now := found + [place];
    assert now[|found|] == place;
    forall at: nat | at < place.at + 1 && Counted(c, calls, at) != {} ensures Listed(now, at) {
      if at < place.at {
        assert Listed(found, at);
        var i :| 0 <= i < |found| && found[i].at == at;
        assert now[i].at == at;
      }
    }
  }

  /** The report is complete and says nothing else: the places come in order, one for every
      call a register is counted on over, and no other. */
  method ReliesOf(c: Code, calls: seq<Option<Called>>) returns (found: seq<Place>, ghost live: seq<Regs>)
    requires c.Valid() && |calls| == |c.flows|
    ensures |live| == |c.flows| && Solved(c, live)
    ensures forall at, r | 0 <= at < |live| :: r in live[at] <==> Wanted(c, at, r)
    ensures forall i | 0 <= i < |found| :: Tells(c, calls, found[i])
    ensures forall i, j | 0 <= i < j < |found| :: found[i].at < found[j].at
    ensures forall at: nat | at < |calls| && Counted(c, calls, at) != {} :: Listed(found, at)
  {
    hide ReadBy, ComeTo, Wanted, WantedAfter;
    var lives := Live(c);
    live := lives;
    found := [];
    for at := 0 to |calls|
      invariant Reported(c, calls, found, at) && live == lives
    {
      var next := found;
      if calls[at].Some? {
        var called := calls[at].value;
        AfterIsWanted(c, lives, at);
        var bad := if Exempt(called.name) then {} else (After(c, lives, at) * called.trashes) - called.gives;
        assert bad == Counted(c, calls, at);
        if bad != {} {
          var reader := FindReader(c, at, Lowest(bad));
          next := found + [Place(at, called.name, bad, reader)];
          ReportOn(c, calls, found, Place(at, called.name, bad, reader));
        }
      }
      found := next;
    }
  }
}
