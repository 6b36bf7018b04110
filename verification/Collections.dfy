/** Small facts about sequences and sets that many proofs need. */
module Collections {
  lemma HeadTail<T>(s: seq<T>)
    requires s != []
    ensures s == [s[0]] + s[1..]
  {
  }

  lemma FrontLast<T>(s: seq<T>)
    requires s != []
    ensures s == s[..|s| - 1] + [s[|s| - 1]]
  {
  }

  lemma TakeOneMore<T>(s: seq<T>, i: nat)
    requires i < |s|
    ensures s[..i + 1] == s[..i] + [s[i]]
  {
  }

  lemma ConcatFront<T>(a: seq<T>, b: seq<T>)
    requires b != []
    ensures (a + b)[..|a + b| - 1] == a + b[..|b| - 1] && (a + b)[|a + b| - 1] == b[|b| - 1]
  {
  }

  lemma ConcatAssoc<T>(a: seq<T>, b: seq<T>, c: seq<T>)
    ensures (a + b) + c == a + (b + c)
  {
  }

  lemma DropDrop<T>(s: seq<T>, i: nat, j: nat)
    requires i + j <= |s|
    ensures s[i..][j..] == s[i + j..]
  {
  }

  /** Lists that alternate are walked two elements at a time. */
  lemma EvenStep(i: nat, n: nat)
    requires i % 2 == 0 && n % 2 == 0 && i < n
    ensures i + 2 <= n && (i + 2) % 2 == 0
  {
  }

  /** A set that is being visited: what is left, and what was visited. */
  ghost predicate Visiting<T>(all: set<T>, todo: set<T>, done: set<T>) {
    todo !! done && todo + done == all
  }

  lemma VisitOne<T>(all: set<T>, todo: set<T>, done: set<T>, x: T)
    requires Visiting(all, todo, done) && x in todo
    ensures Visiting(all, todo - {x}, done + {x}) && |todo - {x}| < |todo| && done + {x} <= all
  {
  }

  lemma VisitedAll<T>(all: set<T>, done: set<T>)
    requires Visiting(all, {}, done)
    ensures done == all
  {
  }

  /** A set that maps one to one into another is no larger. */
  lemma {:induction false} AtMostAsMany<A, B>(a: set<A>, b: set<B>, f: A -> B)
    requires forall x :: x in a ==> f(x) in b
    requires forall x, y :: x in a && y in a && f(x) == f(y) ==> x == y
    ensures |a| <= |b|
  {
    if x :| x in a {
      AtMostAsMany(a - {x}, b - {f(x)}, f);
    }
  }
}
