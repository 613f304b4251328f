/**
 * The `gsub!` calls of cdtgch.rb (lines 72-73) that point a g++ command's
 * dependency options at the precompiled header: every occurrence of an
 * option such as `-MF` followed by a quoted argument, `-MF"…"`, gets the
 * argument replaced. Matching follows the regular expression `-MF"[^"]*"`:
 * the argument runs to the first closing quote, an option with no closing
 * quote after it is left alone, and the scan goes on after each replacement.
 */
module Options {
  import opened Wrappers
  import opened Lines

  const QUOTE: char := '"'

  /** The index of the first quote in s, if any. */
  function CloseQuote(s: string): (r: Option<nat>)
    ensures r.Some? ==> r.value < |s| && s[r.value] == QUOTE && QUOTE !in s[..r.value]
    ensures r.None? <==> QUOTE !in s
  {
    if s == [] then None
    else if s[0] == QUOTE then Some(0)
    else
      match CloseQuote(s[1..])
      case None => None
      case Some(i) =>
        assert s[..i + 1] == [s[0]] + s[1..][..i];
        Some(i + 1)
  }

  /** At index i of s starts an option with a quoted argument: the option, a quote, and a closing quote later on. */
  ghost predicate OptionAt(s: string, i: nat, opt: string) {
    i <= |s| && HasPrefix(s[i..], opt + [QUOTE]) && QUOTE in s[i + |opt| + 1..]
  }

  /**
   * What the rewrite relies on about the option and the new argument: the
   * option starts with a character found nowhere else in the option or the
   * argument, and neither contains a quote. Both `-MF` and `-MT` with the
   * argument `src/stdafx.h.gch.d` qualify.
   */
  predicate Plain(opt: string, value: string) {
    |opt| > 0 && QUOTE !in opt && QUOTE !in value && opt[0] !in opt[1..] && opt[0] !in value
  }

  /** `gsub!(/opt"[^"]*"/, "opt\"value\"")`: every option with a quoted argument gets `value` as its argument. */
  function RewriteOption(s: string, opt: string, value: string): string
    decreases |s|
  {
    if s == [] then []
    else if HasPrefix(s, opt + [QUOTE]) && CloseQuote(s[|opt| + 1..]).Some? then
      var close := |opt| + 1 + CloseQuote(s[|opt| + 1..]).value;
      opt + [QUOTE] + value + [QUOTE] + RewriteOption(s[close + 1..], opt, value)
    else
      [s[0]] + RewriteOption(s[1..], opt, value)
  }

  /** A command with no option carrying a quoted argument is left exactly as it was. */
  lemma {:induction false} RewriteNoOption(s: string, opt: string, value: string)
    requires |opt| > 0
    requires forall i :: 0 <= i <= |s| ==> !OptionAt(s, i, opt)
    ensures RewriteOption(s, opt, value) == s
    decreases |s|
  {
    if s != [] {
      assert !OptionAt(s, 0, opt);
      assert s[0..] == s;
      forall i | 0 <= i <= |s[1..]|
        ensures !OptionAt(s[1..], i, opt)
      {
        assert s[1..][i..] == s[i + 1..];
        assert !OptionAt(s, i + 1, opt);
      }
      RewriteNoOption(s[1..], opt, value);
    }
  }

  /**
   * Text in which no match starts passes through untouched: the rewrite of
   * u + v is u followed by the rewrite of v, whatever u holds otherwise
   * (other options, dashes, quoted file names).
   */
  lemma {:induction false} RewriteCopies(u: string, v: string, opt: string, value: string)
    requires forall i :: 0 <= i < |u| ==> !OptionAt(u + v, i, opt)
    ensures RewriteOption(u + v, opt, value) == u + RewriteOption(v, opt, value)
    decreases |u|
  {
    if u != [] {
      var s := u + v;
      assert !OptionAt(s, 0, opt);
      CopyHead(s, opt, value);
      NoMatchAfterHead(u, v, opt);
      assert s[1..] == u[1..] + v;
      RewriteCopies(u[1..], v, opt, value);
      assert [u[0]] + u[1..] == u;
    } else {
      assert u + v == v;
    }
  }

  /** Where no match starts, the rewrite copies one character and goes on. */
  lemma CopyHead(s: string, opt: string, value: string)
    requires s != [] && !OptionAt(s, 0, opt)
    ensures RewriteOption(s, opt, value) == [s[0]] + RewriteOption(s[1..], opt, value)
  {
    assert s[0..] == s;
  }

  /** No match starting inside u, after its first character, is none inside the rest of u. */
  lemma NoMatchAfterHead(u: string, v: string, opt: string)
    requires u != [] && forall i :: 0 <= i < |u| ==> !OptionAt(u + v, i, opt)
    ensures forall i :: 0 <= i < |u[1..]| ==> !OptionAt(u[1..] + v, i, opt)
  {
    var s := u + v;
    forall i | 0 <= i < |u[1..]|
      ensures !OptionAt(u[1..] + v, i, opt)
    {
      assert (u[1..] + v)[i..] == s[i + 1..];
      assert !OptionAt(s, i + 1, opt);
    }
  }

  /** Text without the option's first character passes through untouched, and so does what follows it until the next option. */
  lemma RewriteKeeps(u: string, v: string, opt: string, value: string)
    requires |opt| > 0 && opt[0] !in u
    ensures RewriteOption(u + v, opt, value) == u + RewriteOption(v, opt, value)
  {
    forall i | 0 <= i < |u|
      ensures !OptionAt(u + v, i, opt)
    {
      assert (u + v)[i..][0] == u[i];
    }
    RewriteCopies(u, v, opt, value);
  }

  /** Read backwards: when the result starts with text lacking the option's first character, so did the input. */
  lemma {:induction false} RewritePrefix(t: string, w: string, opt: string, value: string)
    requires |opt| > 0 && opt[0] !in w
    requires HasPrefix(RewriteOption(t, opt, value), w)
    ensures HasPrefix(t, w)
    decreases |w|
  {
    if w != [] {
      var r := RewriteOption(t, opt, value);
      assert r[0] == w[0];
      assert t != [];
      assert r == [t[0]] + RewriteOption(t[1..], opt, value);
      assert HasPrefix(RewriteOption(t[1..], opt, value), w[1..]);
      RewritePrefix(t[1..], w[1..], opt, value);
    }
  }

  /** From index n on, every option with a quoted argument in r carries `value`. */
  ghost predicate ValueSetFrom(r: string, n: nat, opt: string, value: string) {
    forall i :: n <= i <= |r| && OptionAt(r, i, opt) ==> HasPrefix(r[i + |opt| + 1..], value + [QUOTE])
  }

  /** What holds of a string holds of it behind any prefix. */
  lemma ValueSetShift(pre: string, rest: string, opt: string, value: string)
    requires ValueSetFrom(rest, 0, opt, value)
    ensures ValueSetFrom(pre + rest, |pre|, opt, value)
  {
    var r := pre + rest;
    forall i | |pre| <= i <= |r| && OptionAt(r, i, opt)
      ensures HasPrefix(r[i + |opt| + 1..], value + [QUOTE])
    {
      assert r[i..] == rest[i - |pre|..];
      assert OptionAt(rest, i - |pre|, opt) by {
        assert rest[i - |pre| + |opt| + 1..] == r[i + |opt| + 1..];
      }
      assert rest[i - |pre| + |opt| + 1..] == r[i + |opt| + 1..];
    }
  }

  /**
   * After the rewrite every option with a quoted argument carries `value`:
   * no other argument survives, and the replacement creates no new one.
   */
  lemma {:induction false} RewriteSetsValue(s: string, opt: string, value: string)
    requires Plain(opt, value)
    ensures ValueSetFrom(RewriteOption(s, opt, value), 0, opt, value)
    decreases |s|
  {
    var r := RewriteOption(s, opt, value);
    if s == [] {
      return;
    }
    if HasPrefix(s, opt + [QUOTE]) && CloseQuote(s[|opt| + 1..]).Some? {
      var close := |opt| + 1 + CloseQuote(s[|opt| + 1..]).value;
      var m := opt + [QUOTE] + value + [QUOTE];
      var rest := RewriteOption(s[close + 1..], opt, value);
      assert r == m + rest;
      RewriteSetsValue(s[close + 1..], opt, value);
      ValueSetShift(m, rest, opt, value);
      ReplacementSetsValue(m, rest, opt, value);
    } else {
      var rest := RewriteOption(s[1..], opt, value);
      assert r == [s[0]] + rest;
      RewriteSetsValue(s[1..], opt, value);
      ValueSetShift([s[0]], rest, opt, value);
      NoOptionAtStart(s, opt, value);
    }
  }

  /** A replaced option is followed by `value`, and no option starts inside the replacement. */
  lemma ReplacementSetsValue(m: string, rest: string, opt: string, value: string)
    requires Plain(opt, value) && m == opt + [QUOTE] + value + [QUOTE]
    requires ValueSetFrom(m + rest, |m|, opt, value)
    ensures ValueSetFrom(m + rest, 0, opt, value)
  {
    var r := m + rest;
    forall i | 0 <= i < |m| && OptionAt(r, i, opt)
      ensures HasPrefix(r[i + |opt| + 1..], value + [QUOTE])
    {
      assert r[i] == opt[0] by {
        assert r[i..][0] == (opt + [QUOTE])[0];
      }
      if i == 0 {
        assert r[|opt| + 1..] == value + [QUOTE] + rest;
      } else {
        assert false;
      }
    }
  }

  /**
   * When s does not start with an option the rewrite replaces, neither does
   * its rewrite: the result would have to start with the option, so s would
   * too, and then its argument would have no closing quote.
   */
  lemma NoOptionAtStart(s: string, opt: string, value: string)
    requires Plain(opt, value) && s != []
    requires !(HasPrefix(s, opt + [QUOTE]) && CloseQuote(s[|opt| + 1..]).Some?)
    ensures !OptionAt(RewriteOption(s, opt, value), 0, opt)
    ensures ValueSetFrom(RewriteOption(s, opt, value), 1, opt, value) ==> ValueSetFrom(RewriteOption(s, opt, value), 0, opt, value)
  {
    var r := RewriteOption(s, opt, value);
    if OptionAt(r, 0, opt) {
      assert r[0..] == r;
      OptionBeforeRewrite(s, opt, value);
      Unterminated(s, opt, value);
      assert false;
    }
  }

  /** A result starting with the option comes from an input starting with it, when the input's first character was copied. */
  lemma OptionBeforeRewrite(s: string, opt: string, value: string)
    requires Plain(opt, value) && s != []
    requires !(HasPrefix(s, opt + [QUOTE]) && CloseQuote(s[|opt| + 1..]).Some?)
    requires HasPrefix(RewriteOption(s, opt, value), opt + [QUOTE])
    ensures HasPrefix(s, opt + [QUOTE])
  {
    var r := RewriteOption(s, opt, value);
    var rest := RewriteOption(s[1..], opt, value);
    assert r == [s[0]] + rest;
    var w := opt[1..] + [QUOTE];
    assert opt + [QUOTE] == [opt[0]] + w;
    assert rest[..|w|] == r[1..|opt| + 1];
    RewritePrefix(s[1..], w, opt, value);
    assert s[..|opt| + 1] == [s[0]] + s[1..][..|w|];
  }

  /** An option whose argument never closes is copied as it is, together with everything after it. */
  lemma Unterminated(s: string, opt: string, value: string)
    requires |opt| > 0 && HasPrefix(s, opt + [QUOTE]) && QUOTE !in s[|opt| + 1..]
    ensures RewriteOption(s, opt, value) == s
  {
    forall i | 0 <= i <= |s|
      ensures !OptionAt(s, i, opt)
    {
      if OptionAt(s, i, opt) {
        assert false;
      }
    }
    RewriteNoOption(s, opt, value);
  }

  /** A quoted argument without inner quotes closes at the quote right after it. */
  lemma CloseQuoteAfter(a: string, v: string)
    requires QUOTE !in a
    ensures CloseQuote(a + [QUOTE] + v) == Some(|a|)
  {
    var t := a + [QUOTE] + v;
    assert t[|a|] == QUOTE;
    var k := CloseQuote(t).value;
    assert t[..|a|] == a;
    assert k >= |a| && k <= |a|;
  }

  /**
   * One match of the `gsub!`: text in which no match starts is copied, the
   * option's quoted argument becomes `value`, and the scan goes on right
   * after the closing quote.
   */
  lemma RewriteStep(u: string, a: string, v: string, opt: string, value: string)
    requires QUOTE !in a
    requires forall i :: 0 <= i < |u| ==> !OptionAt(u + (opt + [QUOTE] + a + [QUOTE] + v), i, opt)
    ensures RewriteOption(u + (opt + [QUOTE] + a + [QUOTE] + v), opt, value)
         == u + (opt + [QUOTE] + value + [QUOTE] + RewriteOption(v, opt, value))
  {
    RewriteCopies(u, opt + [QUOTE] + a + [QUOTE] + v, opt, value);
    RewriteMatch(a, v, opt, value);
  }

  /** A match at the very start is replaced, and the scan resumes after its closing quote. */
  lemma RewriteMatch(a: string, v: string, opt: string, value: string)
    requires QUOTE !in a
    ensures RewriteOption(opt + [QUOTE] + a + [QUOTE] + v, opt, value)
         == opt + [QUOTE] + value + [QUOTE] + RewriteOption(v, opt, value)
  {
    var t := opt + [QUOTE] + a + [QUOTE] + v;
    assert t[..|opt| + 1] == opt + [QUOTE];
    assert t[|opt| + 1..] == a + [QUOTE] + v;
    CloseQuoteAfter(a, v);
    assert t[|opt| + 1 + |a| + 1..] == v;
  }

  /** The rewrite brings in no quote of its own: a quote in the result was in the input. */
  lemma {:induction false} QuoteBack(t: string, opt: string, value: string)
    requires QUOTE in RewriteOption(t, opt, value)
    ensures QUOTE in t
    decreases |t|
  {
    if t != [] && !(HasPrefix(t, opt + [QUOTE]) && CloseQuote(t[|opt| + 1..]).Some?) && t[0] != QUOTE {
      var rest := RewriteOption(t[1..], opt, value);
      assert RewriteOption(t, opt, value) == [t[0]] + rest;
      assert QUOTE in rest;
      QuoteBack(t[1..], opt, value);
      assert t == [t[0]] + t[1..];
    } else if t != [] && t[0] != QUOTE {
      assert t[|opt|] == QUOTE;
    }
  }

  /** What holds of every option in a string holds of every option in a suffix of it. */
  lemma ValueSetSuffix(s: string, k: nat, opt: string, value: string)
    requires k <= |s| && ValueSetFrom(s, 0, opt, value)
    ensures ValueSetFrom(s[k..], 0, opt, value)
  {
    var t := s[k..];
    forall i | 0 <= i <= |t| && OptionAt(t, i, opt)
      ensures HasPrefix(t[i + |opt| + 1..], value + [QUOTE])
    {
      assert t[i..] == s[k + i..];
      assert t[i + |opt| + 1..] == s[k + i + |opt| + 1..];
      assert OptionAt(s, k + i, opt);
    }
  }

  /**
   * Rewriting a second option keeps what the first rewrite established: the
   * second pass never touches an argument of the first option, and creates
   * no occurrence of it. It relies on the two options having the same length
   * and differing, and on each option's first character not recurring in the
   * other after its start.
   */
  lemma {:induction false} RewriteKeepsValues(s: string, opt: string, other: string, value: string)
    requires Plain(opt, value) && Plain(other, value)
    requires |other| == |opt| && other != opt
    requires opt[0] !in other[1..] && other[0] !in opt[1..]
    requires ValueSetFrom(s, 0, other, value)
    ensures ValueSetFrom(RewriteOption(s, opt, value), 0, other, value)
    decreases |s|
  {
    var r := RewriteOption(s, opt, value);
    if s == [] {
      return;
    }
    if HasPrefix(s, opt + [QUOTE]) && CloseQuote(s[|opt| + 1..]).Some? {
      var close := |opt| + 1 + CloseQuote(s[|opt| + 1..]).value;
      var m := opt + [QUOTE] + value + [QUOTE];
      var rest := RewriteOption(s[close + 1..], opt, value);
      assert r == m + rest;
      ValueSetSuffix(s, close + 1, other, value);
      RewriteKeepsValues(s[close + 1..], opt, other, value);
      ValueSetShift(m, rest, other, value);
      ReplacementKeepsValues(m, rest, opt, other, value);
    } else {
      var rest := RewriteOption(s[1..], opt, value);
      assert r == [s[0]] + rest;
      ValueSetSuffix(s, 1, other, value);
      RewriteKeepsValues(s[1..], opt, other, value);
      ValueSetShift([s[0]], rest, other, value);
      if OptionAt(r, 0, other) {
        CopiedOptionKeepsValue(s, opt, other, value);
      }
    }
  }

  /** No occurrence of the other option starts inside a replacement. */
  lemma ReplacementKeepsValues(m: string, rest: string, opt: string, other: string, value: string)
    requires Plain(opt, value) && Plain(other, value)
    requires |other| == |opt| && other != opt && other[0] !in opt[1..]
    requires m == opt + [QUOTE] + value + [QUOTE]
    requires ValueSetFrom(m + rest, |m|, other, value)
    ensures ValueSetFrom(m + rest, 0, other, value)
  {
    var r := m + rest;
    forall i | 0 <= i < |m|
      ensures !OptionAt(r, i, other)
    {
      if r[i] == other[0] {
        assert i == 0;
        assert r[..|other|] == opt;
      }
    }
  }

  /** An occurrence of the other option at the start of a copied character had its argument set already, and keeps it. */
  lemma CopiedOptionKeepsValue(s: string, opt: string, other: string, value: string)
    requires Plain(opt, value) && Plain(other, value)
    requires |other| == |opt| && opt[0] !in other[1..]
    requires s != [] && !(HasPrefix(s, opt + [QUOTE]) && CloseQuote(s[|opt| + 1..]).Some?)
    requires ValueSetFrom(s, 0, other, value)
    requires OptionAt(RewriteOption(s, opt, value), 0, other)
    ensures HasPrefix(RewriteOption(s, opt, value)[|other| + 1..], value + [QUOTE])
  {
    var r := RewriteOption(s, opt, value);
    var n := |other| + 1;
    assert r[0..] == r;
    CopiedStart(s, opt, other, value);
    assert QUOTE in s[n..] by {
      QuoteBack(s[n..], opt, value);
    }
    assert s[0..] == s;
    assert OptionAt(s, 0, other);
    SetValueCopied(s[n..], opt, value);
  }

  /** A result starting with the other option, its first character copied, comes from an input starting with it; the rest is rewritten on. */
  lemma CopiedStart(s: string, opt: string, other: string, value: string)
    requires Plain(opt, value) && |other| > 0 && opt[0] !in other[1..]
    requires s != [] && !(HasPrefix(s, opt + [QUOTE]) && CloseQuote(s[|opt| + 1..]).Some?)
    requires HasPrefix(RewriteOption(s, opt, value), other + [QUOTE])
    ensures HasPrefix(s, other + [QUOTE])
    ensures RewriteOption(s, opt, value)[|other| + 1..] == RewriteOption(s[|other| + 1..], opt, value)
  {
    var r := RewriteOption(s, opt, value);
    var rest := RewriteOption(s[1..], opt, value);
    assert r == [s[0]] + rest;
    var w := other[1..] + [QUOTE];
    assert other + [QUOTE] == [other[0]] + w;
    assert rest[..|w|] == r[1..|other| + 1];
    RewritePrefix(s[1..], w, opt, value);
    assert s[..|other| + 1] == [s[0]] + s[1..][..|w|];
    assert s[1..] == w + s[|other| + 1..];
    RewriteKeeps(w, s[|other| + 1..], opt, value);
  }

  /** An argument already set to `value` is copied as it is. */
  lemma SetValueCopied(v: string, opt: string, value: string)
    requires Plain(opt, value) && HasPrefix(v, value + [QUOTE])
    ensures HasPrefix(RewriteOption(v, opt, value), value + [QUOTE])
  {
    assert v == value + [QUOTE] + v[|value| + 1..];
    RewriteKeeps(value + [QUOTE], v[|value| + 1..], opt, value);
  }
}
