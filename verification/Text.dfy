/** Strings compared by code point, as Python and the database's text columns compare identifiers. */
module Text {

  predicate Before(a: string, b: string) {
    b != [] && (a == [] || a[0] < b[0] || (a[0] == b[0] && Before(a[1..], b[1..])))
  }

  predicate AtMost(a: string, b: string) {
    a == b || Before(a, b)
  }

  lemma {:induction false} BeforeIsIrreflexive(a: string)
    ensures !Before(a, a)
  {
    if a != [] {
      BeforeIsIrreflexive(a[1..]);
    }
  }

  lemma {:induction false} BeforeIsTransitive(a: string, b: string, c: string)
    requires Before(a, b) && Before(b, c)
    ensures Before(a, c)
  {
    if a != [] && a[0] == b[0] == c[0] {
      BeforeIsTransitive(a[1..], b[1..], c[1..]);
    }
  }

  lemma {:induction false} BeforeIsTotal(a: string, b: string)
    ensures a == b || Before(a, b) || Before(b, a)
  {
    if a != [] && b != [] && a[0] == b[0] {
      BeforeIsTotal(a[1..], b[1..]);
      assert a == [a[0]] + a[1..] && b == [b[0]] + b[1..];
    }
  }

  lemma BeforeIsAsymmetric(a: string, b: string)
    requires Before(a, b)
    ensures !Before(b, a) && a != b
  {
    BeforeIsIrreflexive(a);
    if Before(b, a) {
      BeforeIsTransitive(a, b, a);
    }
  }

  // Strictly ascending lists: the shape of `sorted(set(...))` over names.

  predicate Ascending(names: seq<string>) {
    forall i, j | 0 <= i < j < |names| :: Before(names[i], names[j])
  }

  /** Adds a name to an ascending list unless it is there already. */
  function Include(names: seq<string>, name: string): seq<string> {
    if names == [] then [name]
    else
      var last := names[|names| - 1];
      if last == name then names
      else if Before(last, name) then names + [name]
      else Include(names[..|names| - 1], name) + [last]
  }

  lemma {:induction false} IncludeKeepsAscending(names: seq<string>, name: string)
    requires Ascending(names)
    ensures Ascending(Include(names, name))
    ensures forall x :: x in Include(names, name) <==> x in names || x == name
  {
    if names != [] {
      var front, last := names[..|names| - 1], names[|names| - 1];
      assert names == front + [last];
      if Before(last, name) {
        IncludeAbove(names, name);
      } else if last != name {
        BeforeIsTotal(last, name);
        IncludeBelow(front, name, last);
        IncludeKeepsAscending(front, name);
      }
    }
  }

  lemma IncludeAbove(names: seq<string>, name: string)
    requires Ascending(names) && names != [] && Before(names[|names| - 1], name)
    ensures Ascending(names + [name])
  {
    forall i | 0 <= i < |names| ensures Before(names[i], name) {
      if i < |names| - 1 {
        BeforeIsTransitive(names[i], names[|names| - 1], name);
      }
    }
  }

  lemma IncludeBelow(front: seq<string>, name: string, last: string)
    requires Ascending(front + [last]) && Before(name, last)
    ensures Ascending(front)
    ensures forall x :: x in front || x == name ==> Before(x, last)
  {
    var names := front + [last];
    forall i, j | 0 <= i < j < |front| ensures Before(front[i], front[j]) {
      assert names[i] == front[i] && names[j] == front[j];
    }
    forall x | x in front ensures Before(x, last) {
      var i :| 0 <= i < |front| && front[i] == x;
      assert names[i] == x && names[|front|] == last;
    }
  }

  /** Two ascending lists with the same members are the same list. */
  lemma {:induction false} AscendingIsCanonical(a: seq<string>, b: seq<string>)
    requires Ascending(a) && Ascending(b)
    requires forall x :: x in a <==> x in b
    ensures a == b
  {
    if a == [] {
      HasMember(b);
    } else if b == [] {
      HasMember(a);
    } else {
      assert a[0] in b && b[0] in a;
      LeastIsFirst(a, b[0]);
      LeastIsFirst(b, a[0]);
      if a[0] != b[0] {
        BeforeIsAsymmetric(a[0], b[0]);
      }
      forall x ensures x in a[1..] <==> x in b[1..] {
        TailMembers(a, x);
        TailMembers(b, x);
      }
      AscendingIsCanonical(a[1..], b[1..]);
      assert a == [a[0]] + a[1..] && b == [b[0]] + b[1..];
    }
  }

  lemma HasMember(names: seq<string>)
    ensures names == [] || exists x :: x in names
  {
    if names != [] {
      assert names[0] in names;
    }
  }

  lemma LeastIsFirst(names: seq<string>, x: string)
    requires Ascending(names) && x in names
    ensures names[0] == x || Before(names[0], x)
  {
  }

  lemma TailMembers(names: seq<string>, x: string)
    requires Ascending(names) && names != []
    ensures x in names[1..] <==> x in names && x != names[0]
  {
    assert names == [names[0]] + names[1..];
    if names[0] in names[1..] {
      var i :| 0 <= i < |names[1..]| && names[1..][i] == names[0];
      assert Before(names[0], names[i + 1]);
      BeforeIsIrreflexive(names[0]);
    }
  }
}
