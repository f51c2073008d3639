/** The `replace` steps the two slug normalisers are built from, and the
    normal form both produce. */
module Slugs {
  import opened Text

  /** Character classes whose maximal runs a `replace(/[...]+/g, '-')` collapses. */
  datatype Run = NonAlnum | Space | Hyphen

  predicate InRun(r: Run, c: char)
  {
    match r
    case NonAlnum => !IsLowerAlnum(c)
    case Space => IsSpace(c)
    case Hyphen => c == '-'
  }

  /** Drops the leading run of `r` characters. */
  function DropRun(s: string, r: Run): (t: string)
    ensures |t| <= |s|
    ensures t == [] || !InRun(r, t[0])
  {
    if s != [] && InRun(r, s[0]) then DropRun(s[1..], r) else s
  }

  /** What DropRun leaves is a suffix of its input. */
  lemma {:induction false} DropRunSuffix(s: string, r: Run)
    ensures DropRun(s, r) == s[|s| - |DropRun(s, r)|..]
  {
    if s != [] && InRun(r, s[0]) {
      DropRunSuffix(s[1..], r);
    }
  }

  /** `s.replace(/R+/g, '-')`: every maximal run of class `r` becomes one hyphen. */
  function Squeeze(s: string, r: Run): (t: string)
    ensures |t| <= |s|
    ensures t == [] <==> s == []
    decreases |s|
  {
    if s == [] then []
    else if !InRun(r, s[0]) then [s[0]] + Squeeze(s[1..], r)
    else "-" + Squeeze(DropRun(s[1..], r), r)
  }

  /** `s.replace(/(^-|-$)/g, '')`: one leading and one trailing hyphen go. */
  function StripHyphens(s: string): (t: string)
    ensures var i := if s != [] && s[0] == '-' then 1 else 0;
      && i + |t| <= |s| <= i + |t| + 1
      && t == s[i..i + |t|]
      && (forall j :: i + |t| <= j < |s| ==> s[j] == '-')
  {
    var u := if s != [] && s[0] == '-' then s[1..] else s;
    if u != [] && u[|u| - 1] == '-' then u[..|u| - 1] else u
  }

  predicate IsSlugChar(c: char) { IsLowerAlnum(c) || c == '-' }

  /** No two hyphens side by side. */
  predicate NoDoubleHyphen(s: string)
  {
    forall i :: 0 <= i < |s| - 1 ==> !(s[i] == '-' && s[i + 1] == '-')
  }

  /** A slug in normal form: only `[a-z0-9-]`, no `--`, no hyphen at either end. */
  predicate CleanSlug(s: string)
  {
    && (forall i :: 0 <= i < |s| ==> IsSlugChar(s[i]))
    && NoDoubleHyphen(s)
    && (s != [] ==> s[0] != '-' && s[|s| - 1] != '-')
  }

  /** Squeezing a class that contains the hyphen leaves no `--` behind, and
      the output starts with a hyphen only where the input starts with a run. */
  lemma {:induction false} SqueezeNoDoubleHyphen(s: string, r: Run)
    requires InRun(r, '-')
    ensures NoDoubleHyphen(Squeeze(s, r))
    ensures Squeeze(s, r) != [] && Squeeze(s, r)[0] == '-' ==> s != [] && InRun(r, s[0])
    decreases |s|
  {
    if s != [] {
      if !InRun(r, s[0]) {
        SqueezeNoDoubleHyphen(s[1..], r);
      } else {
        var rest := DropRun(s[1..], r);
        SqueezeNoDoubleHyphen(rest, r);
        var t := Squeeze(rest, r);
        assert t != [] ==> t[0] != '-';
        assert Squeeze(s, r) == "-" + t;
      }
    }
  }

  /** Squeezing a string made of slug characters and run characters leaves
      only slug characters. */
  lemma {:induction false} SqueezeSlugChars(s: string, r: Run)
    requires forall i :: 0 <= i < |s| ==> IsSlugChar(s[i]) || InRun(r, s[i])
    ensures forall i :: 0 <= i < |Squeeze(s, r)| ==> IsSlugChar(Squeeze(s, r)[i])
    decreases |s|
  {
    if s != [] {
      if !InRun(r, s[0]) {
        SqueezeSlugChars(s[1..], r);
      } else {
        var rest := DropRun(s[1..], r);
        DropRunSuffix(s[1..], r);
        assert forall i :: 0 <= i < |rest| ==> rest[i] == s[|s| - |rest| + i];
        SqueezeSlugChars(rest, r);
      }
    }
  }

  /** Removing the end hyphens of a string without `--` gives a clean slug. */
  lemma StripHyphensClean(s: string)
    requires forall i :: 0 <= i < |s| ==> IsSlugChar(s[i])
    requires NoDoubleHyphen(s)
    ensures CleanSlug(StripHyphens(s))
  {
    var u := if s != [] && s[0] == '-' then s[1..] else s;
    assert forall i :: 0 <= i < |u| ==> IsSlugChar(u[i]);
    assert NoDoubleHyphen(u);
    assert u != [] ==> u[0] != '-';
  }

  /** A string whose every run character is a lone hyphen survives Squeeze. */
  lemma {:induction false} SqueezeFixed(s: string, r: Run)
    requires forall i :: 0 <= i < |s| ==> InRun(r, s[i]) ==> s[i] == '-'
    requires forall i :: 0 <= i < |s| - 1 ==> !(InRun(r, s[i]) && InRun(r, s[i + 1]))
    ensures Squeeze(s, r) == s
    decreases |s|
  {
    if s != [] {
      SqueezeFixed(s[1..], r);
      if InRun(r, s[0]) {
        assert s[1..] == [] || !InRun(r, s[1..][0]);
        assert DropRun(s[1..], r) == s[1..];
        assert Squeeze(s, r) == "-" + s[1..];
      } else {
        assert Squeeze(s, r) == [s[0]] + s[1..];
      }
    }
  }

  lemma StripHyphensOfClean(s: string)
    requires CleanSlug(s)
    ensures StripHyphens(s) == s
  {
  }

  /** Characters outside the class pass through Squeeze unchanged. */
  lemma {:induction false} SqueezeWord(w: string, s: string, r: Run)
    requires forall i :: 0 <= i < |w| ==> !InRun(r, w[i])
    ensures Squeeze(w + s, r) == w + Squeeze(s, r)
    decreases |w|
  {
    if w != [] {
      assert (w + s)[0] == w[0] && (w + s)[1..] == w[1..] + s;
      SqueezeWord(w[1..], s, r);
      assert w + Squeeze(s, r) == [w[0]] + (w[1..] + Squeeze(s, r));
    } else {
      assert w + s == s && w + Squeeze(s, r) == Squeeze(s, r);
    }
  }

  /** DropRun removes a whole leading run and stops at the first other character. */
  lemma {:induction false} DropWholeRun(run: string, s: string, r: Run)
    requires forall i :: 0 <= i < |run| ==> InRun(r, run[i])
    requires s == [] || !InRun(r, s[0])
    ensures DropRun(run + s, r) == s
    decreases |run|
  {
    if run == [] {
      assert run + s == s;
    } else {
      assert (run + s)[1..] == run[1..] + s;
      DropWholeRun(run[1..], s, r);
    }
  }

  /** A run of the class, however long, becomes a single hyphen. */
  lemma SqueezeRun(run: string, s: string, r: Run)
    requires run != [] && forall i :: 0 <= i < |run| ==> InRun(r, run[i])
    requires s == [] || !InRun(r, s[0])
    ensures Squeeze(run + s, r) == "-" + Squeeze(s, r)
  {
    assert (run + s)[1..] == run[1..] + s;
    DropWholeRun(run[1..], s, r);
  }

  /** A non-empty run of `[a-z0-9]`. */
  predicate IsWord(w: string)
  {
    w != [] && forall i :: 0 <= i < |w| ==> IsLowerAlnum(w[i])
  }

  /** Two words joined by one hyphen form a clean slug. */
  lemma WordsJoinedClean(a: string, b: string)
    requires IsWord(a) && IsWord(b)
    ensures CleanSlug(a + "-" + b)
  {
    var s := a + "-" + b;
    assert forall i :: 0 <= i < |s| ==> s[i] == (if i < |a| then a[i] else if i == |a| then '-' else b[i - |a| - 1]);
  }

  /** Two stretches without run characters around a run join with one hyphen. */
  lemma SqueezeJoins(x: string, sep: string, y: string, r: Run)
    requires forall i :: 0 <= i < |x| ==> !InRun(r, x[i])
    requires forall i :: 0 <= i < |y| ==> !InRun(r, y[i])
    requires sep != [] && forall i :: 0 <= i < |sep| ==> InRun(r, sep[i])
    ensures Squeeze(x + (sep + y), r) == x + "-" + y
  {
    assert y + [] == y;
    SqueezeWord(y, [], r);
    assert Squeeze(y, r) == y;
    SqueezeRun(sep, y, r);
    SqueezeWord(x, sep + y, r);
    assert x + ("-" + y) == x + "-" + y;
  }

  /** The words of the name "Food & Recipes", lowercased. */
  lemma FoodRecipesWords()
    ensures IsWord(Lower("Food")) && IsWord(Lower("Recipes"))
    ensures Lower("Food") + "-" + Lower("Recipes") == "food-recipes"
  {
  }

  /** The words of the name "don't", lowercased. */
  lemma DontWords()
    ensures IsWord(Lower("don")) && IsWord(Lower("t"))
    ensures Lower("don") + "-" + Lower("t") == "don-t"
    ensures Lower("don") + Lower("t") == "dont"
  {
  }
}
