/**
 The other half of the rewriting law: for any two paths that are not kept apart there is a
 settings file whose seeding shows in the comparison.
 */
module PathRewriteExact {
  import opened Bytes
  import opened PathRewrite

  /** Seeding s does not show: restored, it is what restoring s alone gives. */
  predicate Invisible(s: bytes, template: bytes, copy: bytes)
    requires template != [] && copy != []
  {
    ReplaceAll(ReplaceAll(s, template, copy), copy, template) == ReplaceAll(s, copy, template)
  }

  // ---- replacing ---------------------------------------------------------------------------

  lemma {:induction false} ReplaceNone(s: bytes, target: bytes, with: bytes)
    requires target != [] && !Mentions(s, target)
    ensures ReplaceAll(s, target, with) == s
  {
    if s != [] {
      assert s[0..] == s;
      forall i | 0 <= i <= |s[1..]| ensures !(target <= s[1..][i..]) { assert s[1..][i..] == s[i + 1..]; }
      ReplaceNone(s[1..], target, with);
    }
  }

  lemma ShortMentionsNothing(s: bytes, target: bytes)
    requires |s| < |target|
    ensures !Mentions(s, target)
  {
  }

  lemma ReplaceHead(s: bytes, target: bytes, with: bytes)
    requires target != [] && target <= s
    ensures ReplaceAll(s, target, with) == with + ReplaceAll(s[|target|..], target, with)
  {
  }

  lemma ReplaceStep(s: bytes, target: bytes, with: bytes)
    requires target != [] && s != [] && !(target <= s)
    ensures ReplaceAll(s, target, with) == [s[0]] + ReplaceAll(s[1..], target, with)
  {
  }

  /** The first occurrence is replaced, and what follows it on its own. */
  lemma {:induction false} ReplaceFirst(s: bytes, target: bytes, with: bytes, i: nat)
    requires target != [] && i <= |s| && target <= s[i..] && forall j :: 0 <= j < i ==> !(target <= s[j..])
    ensures i + |target| <= |s| && ReplaceAll(s, target, with) == s[..i] + with + ReplaceAll(s[i + |target|..], target, with)
  {
    hide ReplaceAll;
    assert s[0..] == s;
    if i == 0 {
      ReplaceHead(s, target, with);
      assert s[..0] + with == with;
    } else {
      ReplaceStep(s, target, with);
      var t := s[1..];
      forall j | 0 <= j < i - 1 ensures !(target <= t[j..]) { assert t[j..] == s[j + 1..]; }
      assert t[i - 1..] == s[i..];
      ReplaceFirst(t, target, with, i - 1);
      assert t[i - 1 + |target|..] == s[i + |target|..];
      Prepend(s, i, with, ReplaceAll(s[i + |target|..], target, with));
    }
  }

  lemma Prepend(s: bytes, i: nat, with: bytes, rest: bytes)
    requires 0 < i <= |s|
    ensures [s[0]] + (s[1..][..i - 1] + with + rest) == s[..i] + with + rest
  {
    assert s[..i] == [s[0]] + s[1..][..i - 1];
  }

  lemma FirstMention(s: bytes, target: bytes, at: nat) returns (i: nat)
    requires at <= |s| && target <= s[at..]
    ensures i <= at && target <= s[i..] && forall j :: 0 <= j < i ==> !(target <= s[j..])
  {
    i := 0;
    while !(target <= s[i..])
      invariant i <= at && forall j :: 0 <= j < i ==> !(target <= s[j..])
      decreases at - i
    {
      i := i + 1;
    }
  }

  /** How many occurrences are replaced. */
  function Count(s: bytes, target: bytes): nat
    requires target != []
  {
    if s == [] then 0 else if target <= s then 1 + Count(s[|target|..], target) else Count(s[1..], target)
  }

  function Times(c: int, d: int): int {
    c * d
  }

  lemma {:induction false} CountGivesLength(s: bytes, target: bytes, with: bytes)
    requires target != []
    ensures |ReplaceAll(s, target, with)| == |s| + Times(Count(s, target), |with| - |target|)
    ensures Times(Count(s, target), |target|) <= |s|
    decreases |s|
  {
    if s != [] {
      if target <= s {
        CountGivesLength(s[|target|..], target, with);
        Distribute(Count(s[|target|..], target), |with| - |target|);
        Distribute(Count(s[|target|..], target), |target|);
      } else {
        CountGivesLength(s[1..], target, with);
      }
    }
  }

  lemma Distribute(c: nat, d: int)
    ensures Times(1 + c, d) == d + Times(c, d)
  {
  }

  lemma {:induction false} MentionedIsCounted(s: bytes, target: bytes, i: nat)
    requires target != [] && i <= |s| && target <= s[i..]
    ensures Count(s, target) >= 1
  {
    if !(target <= s) {
      assert s[0..] == s && s[i..] == s[1..][i - 1..];
      MentionedIsCounted(s[1..], target, i - 1);
    }
  }

  // ---- one path inside the other ---------------------------------------------------------------

  lemma MentionIsShorter(x: bytes, y: bytes, i: nat)
    requires i <= |x| && y <= x[i..] && x != y
    ensures |y| < |x|
  {
  }

  /** A template path that holds the copy's: the template's own path is the file. */
  lemma TemplateHoldsCopy(template: bytes, copy: bytes)
    requires template != [] && copy != [] && template != copy && Mentions(template, copy)
    ensures !Invisible(template, template, copy)
  {
    var i: nat :| i <= |template| && copy <= template[i..];
    MentionIsShorter(template, copy, i);
    assert template[|template|..] == [] && copy[|copy|..] == [];
    assert ReplaceAll(template, template, copy) == copy + [];
    assert ReplaceAll(copy, copy, template) == template + [];
    MentionedIsCounted(template, copy, i);
    CountGivesLength(template, copy, template);
    Positive(Count(template, copy), |template| - |copy|);
  }

  lemma Positive(c: nat, d: int)
    requires c >= 1 && d >= 1
    ensures Times(c, d) >= 1
  {
  }

  /** A copy path that holds the template's: the copy's own path is the file. */
  lemma CopyHoldsTemplate(template: bytes, copy: bytes)
    requires template != [] && copy != [] && template != copy && Mentions(copy, template)
    ensures !Invisible(copy, template, copy)
  {
    var i: nat :| i <= |copy| && template <= copy[i..];
    hide *;
    MentionIsShorter(copy, template, i);
    ReplaceWhole(copy, template);
    MentionedIsCounted(copy, template, i);
    CountGivesLength(copy, template, copy);
    RestoredDiffers(template, copy, ReplaceAll(copy, template, copy), Count(copy, template));
    VisibleByLength(template, copy);
  }

  lemma RestoredDiffers(template: bytes, copy: bytes, r: bytes, c: nat)
    requires c >= 1 && 0 < |template| < |copy| && |r| == |copy| + Times(c, |copy| - |template|)
    ensures |ReplaceAll(r, copy, template)| != |template|
  {
    hide *;
    CountGivesLength(r, copy, template);
    TooManyCopies(c, Count(r, copy), |copy|, |template|, |r|);
  }

  lemma VisibleByLength(template: bytes, copy: bytes)
    requires template != [] && copy != [] && ReplaceAll(copy, copy, template) == template
    requires |ReplaceAll(ReplaceAll(copy, template, copy), copy, template)| != |template|
    ensures !Invisible(copy, template, copy)
  {
    hide ReplaceAll;
  }

  lemma ReplaceWhole(target: bytes, with: bytes)
    requires target != []
    ensures ReplaceAll(target, target, with) == with
  {
    assert target[|target|..] == [] && with + [] == with;
  }

  lemma TooManyCopies(c: nat, k: nat, copy: nat, template: nat, r: nat)
    requires c >= 1 && 0 < template < copy && r == copy + Times(c, copy - template) && Times(k, copy) <= r
    ensures r + Times(k, template - copy) != template
  {
    var d := copy - template;
    if r + Times(k, template - copy) == template {
      Expand(c, k, d);
      Negates(k, d);
      if k != c + 1 { NonZero(c + 1 - k, d); }
      Distribute(c, copy);
      Spread(c, copy, template);
      Positive(c, template);
      hide Times;
    }
  }

  lemma Negates(k: int, d: int)
    ensures Times(k, -d) == -Times(k, d)
  {
  }

  lemma Expand(c: int, k: int, d: int)
    ensures Times(c + 1 - k, d) == Times(c, d) + d - Times(k, d)
  {
  }

  lemma Spread(c: int, a: int, b: int)
    ensures Times(c, a - b) == Times(c, a) - Times(c, b)
  {
  }

  lemma NonZero(a: int, d: int)
    requires a != 0 && d > 0
    ensures Times(a, d) != 0
  {
    if a > 0 { assert a * d >= d; } else { assert a * d <= -d; }
  }

  // ---- paths that overlap ----------------------------------------------------------------------

  lemma InsideIsMentioned(x: bytes, y: bytes, k: nat)
    requires k + |y| <= |x| && Meets(x, k, y)
    ensures Mentions(x, y)
  {
    forall i | 0 <= i < |y| ensures x[k..][i] == y[i] { assert x[k + i] == y[k + i - k]; }
    assert y <= x[k..];
  }

  lemma PrefixIsMentioned(x: bytes, y: bytes)
    requires y <= x
    ensures Mentions(x, y)
  {
    assert x[0..] == x;
  }

  /** Paths that meet without one holding the other overlap end to start. */
  lemma MeetsOverlaps(x: bytes, y: bytes, k: nat)
    requires k < |x| && Meets(x, k, y) && !Mentions(x, y) && !Mentions(y, x)
    ensures 0 < k && k + |y| > |x| && x[k..] == y[..|x| - k]
  {
    if k + |y| <= |x| { InsideIsMentioned(x, y, k); }
    if k == 0 && |x| <= |y| { InsideIsMentioned(y, x, 0); }
    forall i | 0 <= i < |x| - k && i < |y| ensures x[k..][i] == y[i] { assert x[k + i] == y[k + i - k]; }
  }

  lemma SuffixMentions(x: bytes, y: bytes, n: nat)
    requires n <= |x| && !Mentions(x, y)
    ensures !Mentions(x[n..], y)
  {
    forall i | 0 <= i <= |x[n..]| ensures !(y <= x[n..][i..]) { assert x[n..][i..] == x[n + i..]; }
  }

  /** The template's end begins the copy's path: the two spliced are the file. */
  lemma TemplateRunsIntoCopy(template: bytes, copy: bytes, k: nat)
    requires template != [] && copy != [] && template != copy && !Mentions(template, copy) && !Mentions(copy, template)
    requires k < |template| && Meets(template, k, copy)
    ensures !Invisible(template[..k] + copy, template, copy)
  {
    MeetsOverlaps(template, copy, k);
    var n := |template| - k;
    var b := copy[n..];
    var s := template[..k] + copy;
    assert s == template + b by { assert copy == copy[..n] + b && template == template[..k] + template[k..]; }
    assert s[|template|..] == b;
    SuffixMentions(copy, template, n);
    ReplaceNone(b, template, copy);
    ShortMentionsNothing(b, copy);
    ReplaceNone(b, copy, template);
    var r := copy + b;
    assert r[|copy|..] == b;
    assert ReplaceAll(s, template, copy) == r;
    assert ReplaceAll(r, copy, template) == s;
    assert copy <= s[k..] by { assert s[k..] == copy; }
    if template <= copy { PrefixIsMentioned(copy, template); }
    if copy <= template { PrefixIsMentioned(template, copy); }
    FixedIffUnmentioned(s, copy, template);
  }

  /** A text of a first part and the copy's path, restored at the first place the copy's path is found. */
  lemma RestoreOnce(before: bytes, copy: bytes, template: bytes) returns (p: nat)
    requires copy != [] && |before| < |copy|
    ensures p <= |before| && copy <= (before + copy)[p..]
    ensures var u := before + copy; ReplaceAll(u, copy, template) == u[..p] + template + u[p + |copy|..]
  {
    var u := before + copy;
    assert u[|before|..] == copy;
    p := FirstMention(u, copy, |before|);
    ReplaceFirst(u, copy, template, p);
    ShortMentionsNothing(u[p + |copy|..], copy);
    ReplaceNone(u[p + |copy|..], copy, template);
  }

  /** Two texts put together from the same pieces at different places agree only if the paths meet earlier. */
  lemma MeetsEarlier(template: bytes, copy: bytes, k: nat, p: nat)
    requires p < k < |copy| == |template| && copy[k..] == template[..|copy| - k]
    requires copy <= (copy[..k] + copy)[p..]
    requires var u := copy[..k] + copy; u[..p] + template + u[p + |copy|..] == template + template[|copy| - k..]
    ensures Meets(copy, p, template)
  {
    var n, q := |copy|, k - p;
    var u, b := copy[..k] + copy, template[|copy| - k..];
    var left, right := u[..p] + template + u[p + n..], template + b;
    forall m | p <= m < n && m - p < n ensures copy[m] == template[m - p] {
      if m < n - q {
        assert u[p..][m + q] == copy[m + q];
        assert u[p + m + q] == copy[m];
        assert copy[k..][m - p] == template[m - p];
      } else {
        assert right[m + k] == b[m + k - n] == template[m];
        assert left[m + k] == u[m + k] == copy[m];
        assert left[m] == template[m - p] && right[m] == template[m];
      }
    }
  }

  /** The first part of the copy's path, then the template's, seeded: the template's is replaced and nothing before it. */
  lemma SeedSplice(template: bytes, copy: bytes, k: nat)
    requires template != [] && k <= |copy|
    requires forall j :: 0 <= j < k ==> !(template <= (copy[..k] + template)[j..])
    ensures ReplaceAll(copy[..k] + template, template, copy) == copy[..k] + copy
  {
    var s := copy[..k] + template;
    assert s[k..] == template;
    ReplaceFirst(s, template, copy, k);
    assert s[k + |template|..] == [] && s[..k] == copy[..k];
    assert ReplaceAll([], template, copy) == [];
    hide ReplaceAll;
    assert copy[..k] + copy + [] == copy[..k] + copy;
  }

  /** The same text restored: it begins with the copy's path. */
  lemma RestoreSplice(template: bytes, copy: bytes, k: nat)
    requires copy != [] && k <= |copy| && !Mentions(template, copy) && k + |template| >= |copy| && copy[k..] == template[..|copy| - k]
    ensures copy[..k] + template == copy + template[|copy| - k..]
    ensures ReplaceAll(copy[..k] + template, copy, template) == template + template[|copy| - k..]
  {
    var n := |copy|;
    var s, b := copy[..k] + template, template[n - k..];
    assert template == template[..n - k] + b && copy == copy[..k] + copy[k..];
    assert s == copy + b;
    assert s[n..] == b;
    SuffixMentions(template, copy, n - k);
    ReplaceNone(b, copy, template);
  }

  /** The template's path does not start before k, or the paths would meet there. */
  lemma NotSplicedEarlier(template: bytes, copy: bytes, k: nat, j: nat)
    requires j < k < |copy| && copy <= copy[..k] + template && !Meets(copy, j, template)
    ensures !(template <= (copy[..k] + template)[j..])
  {
    var s := copy[..k] + template;
    var i :| j <= i < |copy| && i - j < |template| && copy[i] != template[i - j];
    assert s[i] == copy[i] && s[j..][i - j] == s[i];
  }

  /** The copy's end begins the template's path: spliced at the first such place they are the file. */
  lemma CopyRunsIntoTemplate(template: bytes, copy: bytes, k: nat)
    requires template != [] && copy != [] && template != copy && !Mentions(template, copy) && !Mentions(copy, template)
    requires k < |copy| && Meets(copy, k, template) && forall j :: 0 <= j < k ==> !Meets(copy, j, template)
    ensures !Invisible(copy[..k] + template, template, copy)
  {
    MeetsOverlaps(copy, template, k);
    RestoreSplice(template, copy, k);
    var n, b := |copy|, template[|copy| - k..];
    forall j | 0 <= j < k ensures !(template <= (copy[..k] + template)[j..]) { NotSplicedEarlier(template, copy, k, j); }
    SeedSplice(template, copy, k);
    var p := RestoreOnce(copy[..k], copy, template);
    hide ReplaceAll;
    SplicesDiffer(template, copy, k, p);
  }

  lemma SplicesDiffer(template: bytes, copy: bytes, k: nat, p: nat)
    requires template != copy && 0 < k < |copy| && k + |template| > |copy| && copy[k..] == template[..|copy| - k]
    requires p <= k && copy <= (copy[..k] + copy)[p..] && forall j :: 0 <= j < k ==> !Meets(copy, j, template)
    ensures var u := copy[..k] + copy; u[..p] + template + u[p + |copy|..] != template + template[|copy| - k..]
  {
    var n, u, b := |copy|, copy[..k] + copy, template[|copy| - k..];
    if u[..p] + template + u[p + n..] == template + b {
      assert |u[..p] + template + u[p + n..]| == k + |template| && |template + b| == 2 * |template| - n + k;
      if p < k {
        MeetsEarlier(template, copy, k, p);
      } else {
        assert u[..k] + template + u[k + n..] == copy[..k] + template;
        assert copy[..k] + template == copy + b by { assert template == template[..n - k] + b && copy == copy[..k] + copy[k..]; }
        SameBeforeSuffix(copy, template, b);
      }
    }
  }

  lemma SameBeforeSuffix(x: bytes, y: bytes, b: bytes)
    requires x + b == y + b
    ensures x == y
  {
    assert |x| == |y| && (x + b)[..|x|] == x && (y + b)[..|y|] == y;
  }

  // ---- a copy path that overlaps itself -----------------------------------------------------------

  lemma {:induction false} PeriodMakesPrefix(template: bytes, copy: bytes, k: nat, i: nat)
    requires 0 < k < |copy| && Meets(copy, k, copy) && template + copy[|copy| - k..] == copy[..k] + template
    requires i < |template| && i < |copy|
    ensures template[i] == copy[i]
  {
    var left, right := template + copy[|copy| - k..], copy[..k] + template;
    assert left[i] == template[i] == right[i];
    if i >= k {
      PeriodMakesPrefix(template, copy, k, i - k);
      assert copy[i] == copy[i - k];
    }
  }

  lemma CopyOverlapsItself(template: bytes, copy: bytes, k: nat)
    requires NeverMeet(template, copy) && 0 < k < |copy| && !SelfOverlapHidden(template, copy, k)
    ensures !Invisible(copy[..k] + template, template, copy)
  {
    SeedSplice(template, copy, k);
    RestoreOverlap(template, copy, k);
    var s := copy[..k] + template;
    forall j | 0 <= j <= |s| ensures !(copy <= s[j..]) { CopyNotInSplice(template, copy, k, j); }
    ReplaceNone(s, copy, template);
    hide ReplaceAll;
    assert template + copy[|copy| - k..] != s by { OverlapDiffers(template, copy, k); }
  }

  lemma RestoreOverlap(template: bytes, copy: bytes, k: nat)
    requires 0 < k < |copy| && Meets(copy, k, copy)
    ensures ReplaceAll(copy[..k] + copy, copy, template) == template + copy[|copy| - k..]
  {
    OverlapIsPrefix(copy, k);
    hide *;
    var n, u := |copy|, copy[..k] + copy;
    ShortMentionsNothing(u[n..], copy);
    ReplaceNone(u[n..], copy, template);
    ReplaceHead(u, copy, template);
  }

  lemma OverlapIsPrefix(copy: bytes, k: nat)
    requires 0 < k < |copy| && Meets(copy, k, copy)
    ensures copy <= copy[..k] + copy && (copy[..k] + copy)[|copy|..] == copy[|copy| - k..]
  {
    var n, u := |copy|, copy[..k] + copy;
    forall i | 0 <= i < n ensures u[i] == copy[i] { if i >= k { assert copy[i] == copy[i - k]; } }
  }

  lemma OverlapDiffers(template: bytes, copy: bytes, k: nat)
    requires 0 < k < |copy| && Meets(copy, k, copy) && template != [] && !Meets(template, 0, copy)
    ensures template + copy[|copy| - k..] != copy[..k] + template
  {
    var i :| 0 <= i < |template| && i - 0 < |copy| && template[i] != copy[i - 0];
    if template + copy[|copy| - k..] == copy[..k] + template { PeriodMakesPrefix(template, copy, k, i); }
  }

  /** An occurrence of the copy's path in the splice is a meeting of the two paths. */
  lemma SpliceMeets(template: bytes, copy: bytes, k: nat, j: nat)
    requires 0 < k < |copy| && j <= k + |template| && copy <= (copy[..k] + template)[j..]
    ensures if j < k then Meets(copy, k - j, template) else j - k < |template| && Meets(template, j - k, copy)
  {
    var s := copy[..k] + template;
    forall i | 0 <= i < |copy| ensures s[j + i] == copy[i] { assert s[j..][i] == copy[i]; }
  }

  lemma CopyNotInSplice(template: bytes, copy: bytes, k: nat, j: nat)
    requires NeverMeet(template, copy) && 0 < k < |copy| && j <= k + |template|
    ensures !(copy <= (copy[..k] + template)[j..])
  {
    if copy <= (copy[..k] + template)[j..] { SpliceMeets(template, copy, k, j); }
  }

  // ---- the law ------------------------------------------------------------------------------------

  lemma FirstMeeting(x: bytes, y: bytes, at: nat) returns (k: nat)
    requires at < |x| && Meets(x, at, y)
    ensures k < |x| && Meets(x, k, y) && forall j :: 0 <= j < k ==> !Meets(x, j, y)
  {
    k := 0;
    while !Meets(x, k, y)
      invariant k <= at && forall j :: 0 <= j < k ==> !Meets(x, j, y)
      decreases at - k
    {
      k := k + 1;
    }
  }

  /** For paths not kept apart, a settings file whose seeding shows. */
  lemma ShowsUnlessApart(template: bytes, copy: bytes) returns (s: bytes)
    requires template != [] && copy != [] && !Apart(template, copy)
    ensures !Invisible(s, template, copy)
  {
    hide Invisible;
    if Mentions(template, copy) {
      s := template;
      TemplateHoldsCopy(template, copy);
    } else if Mentions(copy, template) {
      s := copy;
      CopyHoldsTemplate(template, copy);
    } else if k :| 0 <= k < |template| && Meets(template, k, copy) {
      s := template[..k] + copy;
      TemplateRunsIntoCopy(template, copy, k);
    } else if at :| 0 <= at < |copy| && Meets(copy, at, template) {
      var k := FirstMeeting(copy, template, at);
      s := copy[..k] + template;
      CopyRunsIntoTemplate(template, copy, k);
    } else {
      var k :| 0 < k < |copy| && !SelfOverlapHidden(template, copy, k);
      s := copy[..k] + template;
      CopyOverlapsItself(template, copy, k);
    }
  }

  /** Seeding is invisible to the comparison for every settings file exactly when the two paths are kept apart. */
  lemma RewriteIsInvisibleIff(template: bytes, copy: bytes)
    requires template != [] && copy != []
    ensures (forall s :: Invisible(s, template, copy)) <==> Apart(template, copy)
  {
    if Apart(template, copy) {
      forall s ensures Invisible(s, template, copy) { RewriteIsInvisible(s, template, copy); }
    } else {
      var s := ShowsUnlessApart(template, copy);
    }
  }
}
