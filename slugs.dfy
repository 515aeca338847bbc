/**
 * The three slug rules of the admin screens:
 * - the post editor's `generateSlug` (src/components/EnhancedBlogEditor.tsx):
 *   lower-case, drop everything but `[a-z0-9]`, white space and `-`, turn
 *   white-space runs into `-`, squeeze `-` runs, `trim`;
 * - the category form's `generateSlug` (src/components/CategoriesManager.tsx):
 *   lower-case, turn every run of characters outside `[a-z0-9]` into `-`, drop
 *   one leading and one trailing `-`;
 * - the editor's slug input, which lower-cases and drops everything outside
 *   `[a-z0-9-]`.
 * `toLowerCase` is modelled on ASCII letters (see `Text.Lower`).
 */
module Slugs {
  import opened Text
  import Lists

  predicate IsAlnum(c: char) { IsLowerAlpha(c) || IsDigit(c) }
  predicate NotAlnum(c: char) { !IsAlnum(c) }
  predicate IsHyphen(c: char) { c == '-' }
  predicate IsSlugChar(c: char) { IsAlnum(c) || c == '-' }

  /** What `replace(/[^a-z0-9\s-]/g, '')` keeps. */
  predicate EditorKeeps(c: char) { IsSlugChar(c) || IsSpace(c) }

  predicate SlugAlphabet(s: string) {
    forall i | 0 <= i < |s| :: IsSlugChar(s[i])
  }

  predicate NoDoubleHyphen(s: string) {
    forall i | 0 <= i < |s| - 1 :: !(s[i] == '-' && s[i + 1] == '-')
  }

  /** The rest of `s` after its leading run of `inRun` characters. */
  function SkipRun(s: string, inRun: char -> bool): (r: string)
    ensures |r| <= |s| && r == s[|s| - |r|..]
    ensures r != [] ==> !inRun(r[0])
  {
    if s != [] && inRun(s[0]) then SkipRun(s[1..], inRun) else s
  }

  /** `replace(/C+/g, '-')` for the character class `inRun`: each maximal run becomes one `-`. */
  function Collapse(s: string, inRun: char -> bool): (r: string)
    decreases |s|
  {
    if s == [] then []
    else if inRun(s[0]) then "-" + Collapse(SkipRun(s[1..], inRun), inRun)
    else [s[0]] + Collapse(s[1..], inRun)
  }

  /** `replace(/(^-|-$)/g, '')`: one leading and one trailing `-` removed. */
  function StripEdges(s: string): string {
    var a := if s != [] && s[0] == '-' then s[1..] else s;
    if a != [] && a[|a| - 1] == '-' then a[..|a| - 1] else a
  }

  /** The post editor's slug for a title. */
  function EditorSlug(title: string): string {
    Trim(Collapse(Collapse(Lists.Filter(EditorKeeps, Lower(title)), IsSpace), IsHyphen))
  }

  /** The category form's slug for a name. */
  function CategorySlug(name: string): string {
    StripEdges(Collapse(Lower(name), NotAlnum))
  }

  /** The editor's slug input: `value.toLowerCase().replace(/[^a-z0-9-]/g, '')`. */
  function Sanitise(s: string): string {
    Lists.Filter(IsSlugChar, Lower(s))
  }

  // ---------------------------------------------------------------------
  // Collapse

  /** Every character of a collapsed string is a `-` or a character of the input outside the class. */
  lemma {:induction false} CollapseChars(s: string, inRun: char -> bool)
    ensures forall c | c in Collapse(s, inRun) :: c == '-' || (c in s && !inRun(c))
    decreases |s|
  {
    if s != [] {
      if inRun(s[0]) {
        var rest := SkipRun(s[1..], inRun);
        CollapseChars(rest, inRun);
        assert forall c | c in rest :: c in s by {
          forall c | c in rest
            ensures c in s
          {
            var k :| 0 <= k < |rest| && rest[k] == c;
            assert s[1..][|s[1..]| - |rest| + k] == c;
          }
        }
      } else {
        CollapseChars(s[1..], inRun);
      }
    }
  }

  /** A collapsed string starts where its input does, when the input does not start in a run. */
  lemma CollapseHead(s: string, inRun: char -> bool)
    requires s != [] && !inRun(s[0])
    ensures Collapse(s, inRun) != [] && Collapse(s, inRun)[0] == s[0]
  {
  }

  /** A collapsed string ends with `-` when its input ends in a run. */
  lemma {:induction false} CollapseLast(s: string, inRun: char -> bool)
    requires s != [] && inRun(s[|s| - 1])
    ensures Collapse(s, inRun) != [] && Collapse(s, inRun)[|Collapse(s, inRun)| - 1] == '-'
    decreases |s|
  {
    if inRun(s[0]) {
      var rest := SkipRun(s[1..], inRun);
      if rest != [] {
        assert rest[|rest| - 1] == s[1..][|s[1..]| - 1] == s[|s| - 1];
        CollapseLast(rest, inRun);
      }
    } else {
      CollapseLast(s[1..], inRun);
    }
  }

  /** When `-` belongs to the class, a collapsed string never holds two hyphens in a row. */
  lemma {:induction false} CollapseNoDouble(s: string, inRun: char -> bool)
    requires inRun('-')
    ensures NoDoubleHyphen(Collapse(s, inRun))
    decreases |s|
  {
    if s != [] {
      var r := Collapse(s, inRun);
      if inRun(s[0]) {
        var rest := SkipRun(s[1..], inRun);
        var t := Collapse(rest, inRun);
        CollapseNoDouble(rest, inRun);
        if rest != [] {
          CollapseHead(rest, inRun);
        }
        assert r == "-" + t;
        assert forall i | 1 <= i < |r| :: r[i] == t[i - 1];
      } else {
        var t := Collapse(s[1..], inRun);
        CollapseNoDouble(s[1..], inRun);
        assert r == [s[0]] + t;
        assert forall i | 1 <= i < |r| :: r[i] == t[i - 1];
      }
    }
  }

  /**
   * A string in which every class character is a lone `-` is left as it is:
   * each run is already a single hyphen.
   */
  lemma {:induction false} CollapseIdentity(s: string, inRun: char -> bool)
    requires forall i | 0 <= i < |s| :: inRun(s[i]) ==> s[i] == '-' && (i + 1 < |s| ==> !inRun(s[i + 1]))
    ensures Collapse(s, inRun) == s
    decreases |s|
  {
    if s != [] {
      CollapseIdentity(s[1..], inRun);
      if inRun(s[0]) {
        assert SkipRun(s[1..], inRun) == s[1..];
      }
      assert [s[0]] + s[1..] == s;
    }
  }

  lemma LowerSlug(s: string)
    requires SlugAlphabet(s)
    ensures Lower(s) == s
  {
    assert forall i | 0 <= i < |s| :: !IsUpper(s[i]);
  }

  // ---------------------------------------------------------------------
  // The three rules

  /**
   * The editor's slug uses only `[a-z0-9-]`, never two hyphens in a row, and
   * the closing `trim` never changes it (no white space is left by then).
   */
  lemma EditorSlugShape(title: string)
    ensures SlugAlphabet(EditorSlug(title)) && NoDoubleHyphen(EditorSlug(title))
    ensures EditorSlug(title) == Collapse(Collapse(Lists.Filter(EditorKeeps, Lower(title)), IsSpace), IsHyphen)
  {
    var b := Lists.Filter(EditorKeeps, Lower(title));
    var c := Collapse(b, IsSpace);
    var d := Collapse(c, IsHyphen);
    Lists.FilterSpec(EditorKeeps, Lower(title));
    assert forall x | x in b :: !IsUpper(x) by {
      forall x | x in b
        ensures !IsUpper(x)
      {
        var k :| 0 <= k < |Lower(title)| && Lower(title)[k] == x;
      }
    }
    CollapseChars(b, IsSpace);
    CollapseChars(c, IsHyphen);
    CollapseNoDouble(c, IsHyphen);
    assert forall i | 0 <= i < |d| :: IsSlugChar(d[i]) by {
      forall i | 0 <= i < |d|
        ensures IsSlugChar(d[i])
      {
        assert d[i] in d;
      }
    }
    TrimOfNoSpace(d);
  }

  /** A string of `[a-z0-9-]` without a double hyphen is its own editor slug. */
  lemma EditorSlugFixed(d: string)
    requires SlugAlphabet(d) && NoDoubleHyphen(d)
    ensures EditorSlug(d) == d
  {
    var b := Lists.Filter(EditorKeeps, Lower(d));
    assert b == d by {
      LowerSlug(d);
      Lists.FilterAll(EditorKeeps, d);
    }
    assert Collapse(Collapse(b, IsSpace), IsHyphen) == d by {
      CollapseIdentity(d, IsSpace);
      CollapseIdentity(d, IsHyphen);
    }
    TrimOfNoSpace(d);
  }

  /** Generating a slug from a generated slug gives it back. */
  lemma EditorSlugIdempotent(title: string)
    ensures EditorSlug(EditorSlug(title)) == EditorSlug(title)
  {
    EditorSlugShape(title);
    EditorSlugFixed(EditorSlug(title));
  }

  /**
   * A title starting with white space gives a slug starting with `-`, and one
   * ending with white space a slug ending with `-`: `trim` runs only after
   * white space has become hyphens.
   */
  lemma EditorSlugEdges(title: string)
    ensures title != [] && IsSpace(title[0]) ==> EditorSlug(title) != [] && EditorSlug(title)[0] == '-'
    ensures title != [] && IsSpace(title[|title| - 1]) ==>
              EditorSlug(title) != [] && EditorSlug(title)[|EditorSlug(title)| - 1] == '-'
  {
    EditorSlugShape(title);
    if title != [] && IsSpace(title[0]) {
      EditorSlugHead(title);
    }
    if title != [] && IsSpace(title[|title| - 1]) {
      EditorSlugLast(title);
    }
  }

  lemma EditorSlugHead(title: string)
    requires title != [] && IsSpace(title[0])
    ensures var c := Collapse(Collapse(Lists.Filter(EditorKeeps, Lower(title)), IsSpace), IsHyphen);
            c != [] && c[0] == '-'
  {
    var l := Lower(title);
    var b := Lists.Filter(EditorKeeps, l);
    assert l[0] == title[0];
    Lists.FilterEnds(EditorKeeps, l);
    var c := Collapse(b, IsSpace);
    assert c != [] && c[0] == '-';
  }

  lemma EditorSlugLast(title: string)
    requires title != [] && IsSpace(title[|title| - 1])
    ensures var c := Collapse(Collapse(Lists.Filter(EditorKeeps, Lower(title)), IsSpace), IsHyphen);
            c != [] && c[|c| - 1] == '-'
  {
    FilteredLast(title);
    CollapsedLast(Lists.Filter(EditorKeeps, Lower(title)));
  }

  /** White space that ends a title survives lower-casing and the editor's filter. */
  lemma FilteredLast(title: string)
    requires title != [] && IsSpace(title[|title| - 1])
    ensures var b := Lists.Filter(EditorKeeps, Lower(title)); b != [] && IsSpace(b[|b| - 1])
  {
    var l := Lower(title);
    assert l != [] && IsSpace(l[|l| - 1]) by {
      assert l[|l| - 1] == title[|title| - 1];
    }
    Lists.FilterEnds(EditorKeeps, l);
  }

  /** Text ending in white space ends in `-` after both collapses. */
  lemma CollapsedLast(b: string)
    requires b != [] && IsSpace(b[|b| - 1])
    ensures var c := Collapse(Collapse(b, IsSpace), IsHyphen); c != [] && c[|c| - 1] == '-'
  {
    var c := Collapse(b, IsSpace);
    assert c != [] && IsHyphen(c[|c| - 1]) by {
      CollapseLast(b, IsSpace);
    }
    CollapseLast(c, IsHyphen);
  }

  /**
   * The category slug uses only `[a-z0-9-]`, never two hyphens in a row, and
   * neither starts nor ends with a hyphen.
   */
  lemma CategorySlugShape(name: string)
    ensures var r := CategorySlug(name);
            SlugAlphabet(r) && NoDoubleHyphen(r) && (r != [] ==> r[0] != '-' && r[|r| - 1] != '-')
  {
    var s := Collapse(Lower(name), NotAlnum);
    CollapseChars(Lower(name), NotAlnum);
    CollapseNoDouble(Lower(name), NotAlnum);
    assert SlugAlphabet(s) by {
      forall i | 0 <= i < |s|
        ensures IsSlugChar(s[i])
      {
        assert s[i] in s;
      }
    }
    StripEdgesShape(s);
  }

  lemma StripEdgesShape(s: string)
    requires SlugAlphabet(s) && NoDoubleHyphen(s)
    ensures var r := StripEdges(s);
            SlugAlphabet(r) && NoDoubleHyphen(r) && (r != [] ==> r[0] != '-' && r[|r| - 1] != '-')
  {
    var a := if s != [] && s[0] == '-' then s[1..] else s;
    assert a == [] || a[0] != '-';
    assert SlugAlphabet(a) && NoDoubleHyphen(a);
    if a != [] && a[|a| - 1] == '-' {
      assert |a| >= 2 ==> a[|a| - 2] != '-';
    }
  }

  lemma {:induction false} SkipRunAlnum(s: string)
    ensures Lists.Filter(IsAlnum, SkipRun(s, NotAlnum)) == Lists.Filter(IsAlnum, s)
    decreases |s|
  {
    if s != [] && NotAlnum(s[0]) {
      SkipRunAlnum(s[1..]);
    }
  }

  /** Collapsing the runs outside `[a-z0-9]` keeps the letters and digits, in order. */
  lemma {:induction false} CollapseAlnum(s: string)
    ensures Lists.Filter(IsAlnum, Collapse(s, NotAlnum)) == Lists.Filter(IsAlnum, s)
    decreases |s|
  {
    if s != [] {
      var r := Collapse(s, NotAlnum);
      if NotAlnum(s[0]) {
        var rest := SkipRun(s[1..], NotAlnum);
        CollapseAlnum(rest);
        SkipRunAlnum(s[1..]);
        assert r[0] == '-' && r[1..] == Collapse(rest, NotAlnum);
      } else {
        CollapseAlnum(s[1..]);
        assert r[0] == s[0] && r[1..] == Collapse(s[1..], NotAlnum);
      }
    }
  }

  lemma StripEdgesAlnum(s: string)
    ensures Lists.Filter(IsAlnum, StripEdges(s)) == Lists.Filter(IsAlnum, s)
  {
    var a := if s != [] && s[0] == '-' then s[1..] else s;
    assert Lists.Filter(IsAlnum, a) == Lists.Filter(IsAlnum, s) by {
      if s != [] && s[0] == '-' {
        assert !IsAlnum(s[0]);
        Lists.FilterEnds(IsAlnum, s);
      }
    }
    if a != [] && a[|a| - 1] == '-' {
      assert !IsAlnum(a[|a| - 1]);
      Lists.FilterEnds(IsAlnum, a);
      assert StripEdges(s) == a[..|a| - 1];
    } else {
      assert StripEdges(s) == a;
    }
  }

  /**
   * The category slug holds the lower-cased letters and digits of the name,
   * all of them and in order, with hyphens between; a name without any
   * gives the empty slug.
   */
  lemma CategorySlugKeepsAlnum(name: string)
    ensures Lists.Filter(IsAlnum, CategorySlug(name)) == Lists.Filter(IsAlnum, Lower(name))
    ensures Lists.Filter(IsAlnum, Lower(name)) == [] ==> CategorySlug(name) == []
  {
    var r := CategorySlug(name);
    CollapseAlnum(Lower(name));
    StripEdgesAlnum(Collapse(Lower(name), NotAlnum));
    CategorySlugShape(name);
    if r != [] {
      assert IsAlnum(r[0]);
      assert Lists.Filter(IsAlnum, r) != [];
    }
  }

  /** Generating a category slug from a category slug gives it back. */
  lemma CategorySlugIdempotent(name: string)
    ensures CategorySlug(CategorySlug(name)) == CategorySlug(name)
  {
    var r := CategorySlug(name);
    CategorySlugShape(name);
    LowerSlug(r);
    CollapseIdentity(r, NotAlnum);
  }

  /** The slug input keeps only `[a-z0-9-]`, keeps every such character in order, and a second pass changes nothing. */
  lemma SanitiseSpec(s: string)
    ensures SlugAlphabet(Sanitise(s))
    ensures Lists.IsSublist(Sanitise(s), Lower(s))
    ensures Sanitise(Sanitise(s)) == Sanitise(s)
  {
    var r := Sanitise(s);
    Lists.FilterSpec(IsSlugChar, Lower(s));
    assert SlugAlphabet(r) by {
      forall i | 0 <= i < |r|
        ensures IsSlugChar(r[i])
      {
        assert r[i] in r;
      }
    }
    LowerSlug(r);
    Lists.FilterAll(IsSlugChar, r);
  }

  /** Both generated slugs pass the slug input unchanged. */
  lemma GeneratedSlugsSanitised(title: string, name: string)
    ensures Sanitise(EditorSlug(title)) == EditorSlug(title)
    ensures Sanitise(CategorySlug(name)) == CategorySlug(name)
  {
    EditorSlugShape(title);
    CategorySlugShape(name);
    LowerSlug(EditorSlug(title));
    LowerSlug(CategorySlug(name));
    Lists.FilterAll(IsSlugChar, EditorSlug(title));
    Lists.FilterAll(IsSlugChar, CategorySlug(name));
  }
}
