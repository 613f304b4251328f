/**
 * Lines of text and the three ways cdtgch.rb looks for a line: a line equal
 * to a text (`Array#index`, `member?`), a line starting with a text (`=~ /^…/`)
 * or a line containing a text (`=~ /…/`). Also insertion into a list of lines
 * and the subsequence order that says every original line survives an edit.
 */
module Lines {
  import opened Wrappers

  predicate HasPrefix(s: string, p: string) {
    |p| <= |s| && s[..|p|] == p
  }

  /** t occurs somewhere inside s. */
  predicate Contains(s: string, t: string) {
    exists i :: 0 <= i <= |s| && HasPrefix(s[i..], t)
  }

  /** What a line is tested against. */
  datatype Pattern =
    | Equal(text: string)     // the line is exactly `text`
    | Prefix(text: string)    // the line starts with `text`
    | Substring(text: string) // the line contains `text`

  predicate Matches(line: string, p: Pattern) {
    match p
    case Equal(t) => line == t
    case Prefix(t) => HasPrefix(line, t)
    case Substring(t) => Contains(line, t)
  }

  /** The index of the first line that matches p, if any. */
  function Find(ls: seq<string>, p: Pattern): (r: Option<nat>)
    ensures r.Some? ==> r.value < |ls| && Matches(ls[r.value], p)
    ensures r.Some? ==> forall j :: 0 <= j < r.value ==> !Matches(ls[j], p)
    ensures r.None? ==> forall j :: 0 <= j < |ls| ==> !Matches(ls[j], p)
  {
    if ls == [] then None
    else if Matches(ls[0], p) then Some(0)
    else
      match Find(ls[1..], p)
      case None => None
      case Some(i) => Some(i + 1)
  }

  /** Some line matches p. */
  predicate Any(ls: seq<string>, p: Pattern) {
    Find(ls, p).Some?
  }

  lemma AnyIff(ls: seq<string>, p: Pattern)
    ensures Any(ls, p) <==> exists j :: 0 <= j < |ls| && Matches(ls[j], p)
  {
  }

  /** The first matching line is the one at i exactly when no line before i matches. */
  lemma FindAt(ls: seq<string>, p: Pattern, i: nat)
    requires i < |ls| && Matches(ls[i], p)
    requires forall j :: 0 <= j < i ==> !Matches(ls[j], p)
    ensures Find(ls, p) == Some(i)
  {
  }

  lemma FindNone(ls: seq<string>, p: Pattern)
    requires forall j :: 0 <= j < |ls| ==> !Matches(ls[j], p)
    ensures Find(ls, p) == None
  {
  }

  /** `Array#insert(i, x)` for an index within the list. */
  function Insert(ls: seq<string>, i: nat, x: string): (r: seq<string>)
    requires i <= |ls|
    ensures |r| == |ls| + 1 && r[i] == x
    ensures forall j :: 0 <= j < i ==> r[j] == ls[j]
    ensures forall j :: i < j <= |ls| ==> r[j] == ls[j - 1]
  {
    ls[..i] + [x] + ls[i..]
  }

  /** Inserting a line that does not match p adds no match where there was none. */
  lemma FindInsertNone(ls: seq<string>, i: nat, x: string, p: Pattern)
    requires i <= |ls| && !Matches(x, p) && Find(ls, p) == None
    ensures Find(Insert(ls, i, x), p) == None
  {
    var r := Insert(ls, i, x);
    forall j | 0 <= j < |r|
      ensures !Matches(r[j], p)
    {
      if j > i {
        assert r[j] == ls[j - 1];
      }
    }
    FindNone(r, p);
  }

  /**
   * Inserting a line that does not match p leaves the first match where it
   * was when it lies before the insertion point, and moves it by one otherwise.
   */
  lemma FindInsert(ls: seq<string>, i: nat, x: string, p: Pattern, k: nat)
    requires i <= |ls| && !Matches(x, p) && Find(ls, p) == Some(k)
    ensures Find(Insert(ls, i, x), p) == if k < i then Some(k) else Some(k + 1)
  {
    var r := Insert(ls, i, x);
    if k < i {
      FindAt(r, p, k);
    } else {
      forall j | 0 <= j < k + 1
        ensures !Matches(r[j], p)
      {
        if j > i {
          assert r[j] == ls[j - 1];
        }
      }
      FindAt(r, p, k + 1);
    }
  }

  /** Appending lines keeps the first match of the original lines; without one, it is the first match among the new lines. */
  lemma FindAppend(ls: seq<string>, t: seq<string>, p: Pattern)
    ensures Find(ls + t, p) ==
      match Find(ls, p)
      case Some(k) => Some(k)
      case None => match Find(t, p) case None => None case Some(k) => Some(|ls| + k)
  {
    var r := ls + t;
    match Find(ls, p)
    case Some(k) =>
      FindAt(r, p, k);
    case None =>
      match Find(t, p)
      case None =>
        forall j | 0 <= j < |r|
          ensures !Matches(r[j], p)
        {
          if j >= |ls| {
            assert r[j] == t[j - |ls|];
          }
        }
        FindNone(r, p);
      case Some(k) =>
        forall j | 0 <= j < |ls| + k
          ensures !Matches(r[j], p)
        {
          if j >= |ls| {
            assert r[j] == t[j - |ls|];
          }
        }
        FindAt(r, p, |ls| + k);
  }

  /** Some line of an extended list matches exactly when some line of either part does. */
  lemma AnyAppend(ls: seq<string>, t: seq<string>, p: Pattern)
    ensures Any(ls + t, p) <==> Any(ls, p) || Any(t, p)
  {
    FindAppend(ls, t, p);
  }

  /** Some line matches after an insertion exactly when one did before or the inserted line does. */
  lemma AnyInsert(ls: seq<string>, i: nat, x: string, p: Pattern)
    requires i <= |ls|
    ensures Any(Insert(ls, i, x), p) <==> Any(ls, p) || Matches(x, p)
  {
    var r := Insert(ls, i, x);
    assert r == ls[..i] + [x] + ls[i..];
    assert ls == ls[..i] + ls[i..];
    AnyAppend(ls[..i] + [x], ls[i..], p);
    AnyAppend(ls[..i], [x], p);
    AnyAppend(ls[..i], ls[i..], p);
  }

  /** f lists, in increasing order, the places of b where the lines of a sit. */
  ghost predicate Embeds(a: seq<string>, b: seq<string>, f: seq<nat>) {
    && |f| == |a|
    && (forall k :: 0 <= k < |f| ==> f[k] < |b| && b[f[k]] == a[k])
    && (forall k, m :: 0 <= k < m < |f| ==> f[k] < f[m])
  }

  /** Every line of a appears in b, in the same relative order. */
  ghost predicate Subsequence(a: seq<string>, b: seq<string>) {
    exists f :: Embeds(a, b, f)
  }

  lemma SubsequenceRefl(a: seq<string>)
    ensures Subsequence(a, a)
  {
    var f := seq(|a|, k => k);
    assert Embeds(a, a, f);
  }

  lemma SubsequenceTrans(a: seq<string>, b: seq<string>, c: seq<string>)
    requires Subsequence(a, b) && Subsequence(b, c)
    ensures Subsequence(a, c)
  {
    var f :| Embeds(a, b, f);
    var g :| Embeds(b, c, g);
    var h := seq(|a|, k requires 0 <= k < |a| => g[f[k]]);
    assert Embeds(a, c, h);
  }

  lemma SubsequenceInsert(ls: seq<string>, i: nat, x: string)
    requires i <= |ls|
    ensures Subsequence(ls, Insert(ls, i, x))
  {
    var f := seq(|ls|, k => if k < i then k else k + 1);
    assert Embeds(ls, Insert(ls, i, x), f);
  }

  lemma SubsequenceAppend(ls: seq<string>, t: seq<string>)
    ensures Subsequence(ls, ls + t)
  {
    var f := seq(|ls|, k => k);
    assert Embeds(ls, ls + t, f);
  }
}
