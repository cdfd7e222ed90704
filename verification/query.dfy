/**
 The board's view of the task list (App.tsx): the five filters combined with
 AND, and the list of weeks offered by the week selector. The final sort of
 the filtered list is done by a helper that is not part of this model.
 */
module Query {
  import opened Types
  import opened Text

  /** A selector value. `Todos` stands for the string 'Todos', which always
      means no restriction; the selectors never offer an area, team or status
      named 'Todos', so `Only("Todos")` does not arise. */
  datatype Choice<T> = Todos | Only(value: T)

  /** The filter state. An empty `week` imposes no restriction. */
  datatype Filters = Filters(week: string, area: Choice<string>, team: Choice<string>, status: Choice<Status>, search: string)

  /** The state the filters start in and return to on a full reset. */
  const NoFilters := Filters("", Todos, Todos, Todos, "")

  predicate Admits<T(==)>(c: Choice<T>, v: T)
  {
    c.Todos? || c.value == v
  }

  /** Case-insensitive search on title or requester. */
  predicate SearchMatches(t: Task, term: string): (b: bool)
    ensures b <==> Occurs(Lower(t.title), Lower(term)) || Occurs(Lower(t.requester), Lower(term))
  {
    Includes(Lower(t.title), Lower(term)) || Includes(Lower(t.requester), Lower(term))
  }

  /** All five conditions at once; a filter left at its neutral value
      leaves the decision to the others. */
  predicate Matches(t: Task, f: Filters)
    ensures f.week == "" && f.area.Todos? && f.team.Todos? && f.status.Todos? ==>
      (Matches(t, f) <==> SearchMatches(t, f.search))
  {
    && (f.week == "" || t.week == f.week)
    && Admits(f.area, t.area)
    && Admits(f.team, t.responsible)
    && Admits(f.status, t.status)
    && SearchMatches(t, f.search)
  }

  /** `tasks.filter(...)`: the matching tasks, in their original order. */
  function FilterTasks(ts: seq<Task>, f: Filters): (r: seq<Task>)
    ensures |r| <= |ts|
    ensures forall t :: t in r <==> t in ts && Matches(t, f)
  {
    if ts == [] then []
    else if Matches(ts[0], f) then [ts[0]] + FilterTasks(ts[1..], f)
    else FilterTasks(ts[1..], f)
  }

  /** Filtering works piecewise: it keeps the order of the tasks it keeps. */
  lemma {:induction false} FilterAppend(a: seq<Task>, b: seq<Task>, f: Filters)
    ensures FilterTasks(a + b, f) == FilterTasks(a, f) + FilterTasks(b, f)
    decreases |a|
  {
    if a != [] {
      assert (a + b)[1..] == a[1..] + b;
      FilterAppend(a[1..], b, f);
    } else {
      assert a + b == b;
    }
  }

  /** The empty search term matches every task. */
  lemma EmptySearchMatchesAll(t: Task)
    ensures SearchMatches(t, "")
  {
    IncludesEmpty(Lower(t.title));
  }

  /** The search ignores the case of the term. */
  lemma SearchIgnoresTermCase(t: Task, term: string)
    ensures SearchMatches(t, Lower(term)) == SearchMatches(t, term)
  {
    LowerIdempotent(term);
  }

  /** With no filter set, every task is shown, in its original order. */
  lemma {:induction false} NoFiltersKeepAll(ts: seq<Task>)
    ensures FilterTasks(ts, NoFilters) == ts
    decreases |ts|
  {
    if ts != [] {
      EmptySearchMatchesAll(ts[0]);
      NoFiltersKeepAll(ts[1..]);
    }
  }

  /** `f` and `g` restrict disjoint sets of criteria. */
  predicate Separate(f: Filters, g: Filters)
  {
    && (f.week == "" || g.week == "")
    && (f.area.Todos? || g.area.Todos?)
    && (f.team.Todos? || g.team.Todos?)
    && (f.status.Todos? || g.status.Todos?)
    && (f.search == "" || g.search == "")
  }

  /** The filter that imposes the restrictions of both. */
  function Combine(f: Filters, g: Filters): Filters
  {
    Filters(
      if f.week == "" then g.week else f.week,
      if f.area.Todos? then g.area else f.area,
      if f.team.Todos? then g.team else f.team,
      if f.status.Todos? then g.status else f.status,
      if f.search == "" then g.search else f.search)
  }

  lemma CombineMatches(t: Task, f: Filters, g: Filters)
    requires Separate(f, g)
    ensures Matches(t, Combine(f, g)) <==> Matches(t, f) && Matches(t, g)
  {
    EmptySearchMatchesAll(t);
  }

  /** Filters compose with AND: applying two filters on separate criteria one
      after the other is the same as applying their combination. */
  lemma {:induction false} FilterCompose(ts: seq<Task>, f: Filters, g: Filters)
    requires Separate(f, g)
    ensures FilterTasks(FilterTasks(ts, f), g) == FilterTasks(ts, Combine(f, g))
    decreases |ts|
  {
    if ts != [] {
      CombineMatches(ts[0], f, g);
      FilterCompose(ts[1..], f, g);
      if Matches(ts[0], f) {
        assert FilterTasks(ts, f) == [ts[0]] + FilterTasks(ts[1..], f);
        assert ([ts[0]] + FilterTasks(ts[1..], f))[1..] == FilterTasks(ts[1..], f);
      }
    }
  }

  /** Strictly descending in the default string order, hence without repeats. */
  predicate Descending(s: seq<string>)
  {
    forall i, j :: 0 <= i < j < |s| ==> Less(s[j], s[i])
  }

  /** `w` put into its place in a descending list, unless it is already there. */
  function Insert(s: seq<string>, w: string): (r: seq<string>)
    requires Descending(s)
    ensures Descending(r)
    ensures forall x :: x in r <==> x in s || x == w
  {
    if s == [] then
      [w]
    else if s[0] == w then
      s
    else if Less(s[0], w) then
      assert forall j :: 0 <= j < |s| ==> Less(s[j], w) by {
        forall j | 0 < j < |s| ensures Less(s[j], w) {
          LessTransitive(s[j], s[0], w);
        }
      }
      [w] + s
    else
      LessTotal(s[0], w);
      var rest := Insert(s[1..], w);
      assert forall x :: x in rest ==> Less(x, s[0]) by {
        forall x | x in rest ensures Less(x, s[0]) {
          if x != w {
            var j :| 0 <= j < |s[1..]| && s[1..][j] == x;
            assert s[j + 1] == x;
          }
        }
      }
      [s[0]] + rest
  }

  /** The set of weeks that occur in `ts`. */
  ghost function Weeks(ts: seq<Task>): set<string>
  {
    set t | t in ts :: t.week
  }

  /** `Array.from(new Set(tasks.map(t => t.week))).sort().reverse()`: every week
      that occurs, once, in descending order. */
  function WeekOptions(ts: seq<Task>): (r: seq<string>)
    ensures Descending(r)
    ensures forall w :: w in r <==> w in Weeks(ts)
    decreases |ts|
  {
    if ts == [] then
      []
    else
      var rest := WeekOptions(ts[1..]);
      assert forall w :: w in Weeks(ts) <==> w in Weeks(ts[1..]) || w == ts[0].week by {
        forall w | w in Weeks(ts) ensures w in Weeks(ts[1..]) || w == ts[0].week {
          var t :| t in ts && t.week == w;
          if t != ts[0] {
            assert t in ts[1..];
          }
        }
        forall w | w in Weeks(ts[1..]) ensures w in Weeks(ts) {
          var t :| t in ts[1..] && t.week == w;
          assert t in ts;
        }
      }
      Insert(rest, ts[0].week)
  }

  /** A descending list is determined by its elements. */
  lemma {:induction false} DescendingUnique(a: seq<string>, b: seq<string>)
    requires Descending(a) && Descending(b)
    requires forall x :: x in a <==> x in b
    ensures a == b
    decreases |a|
  {
    if a == [] || b == [] {
      HeadIsElement(a);
      HeadIsElement(b);
    } else {
      assert a[0] in b && b[0] in a;
      HeadIsGreatest(a, b[0]);
      HeadIsGreatest(b, a[0]);
      LessTotal(a[0], b[0]);
      forall x ensures x in a[1..] ==> x in b[1..] {
        if x in a[1..] {
          var j :| 0 < j < |a| && a[j] == x;
          assert x in a;
          var k :| 0 <= k < |b| && b[k] == x;
          assert k != 0;
          assert b[1..][k - 1] == x;
        }
      }
      forall x ensures x in b[1..] ==> x in a[1..] {
        if x in b[1..] {
          var j :| 0 < j < |b| && b[j] == x;
          assert x in b;
          var k :| 0 <= k < |a| && a[k] == x;
          assert k != 0;
          assert a[1..][k - 1] == x;
        }
      }
      DescendingUnique(a[1..], b[1..]);
    }
  }

  lemma HeadIsElement(s: seq<string>)
    ensures s != [] ==> s[0] in s
  {
  }

  /** Nothing in a descending list is above its head. */
  lemma HeadIsGreatest(s: seq<string>, x: string)
    requires Descending(s) && x in s
    ensures !Less(s[0], x)
  {
    var j :| 0 <= j < |s| && s[j] == x;
    if j > 0 {
      LessAsymmetric(x, s[0]);
    }
  }

  /** The week list depends only on which weeks occur, not on the order or
      multiplicity of the tasks. */
  lemma WeekOptionsBySet(ts: seq<Task>, us: seq<Task>)
    requires Weeks(ts) == Weeks(us)
    ensures WeekOptions(ts) == WeekOptions(us)
  {
    DescendingUnique(WeekOptions(ts), WeekOptions(us));
  }
}
