/**
 The rewriting of absolute paths in a settings file: seeding maps the template's
 directory onto the copy's, comparing maps it back.
 */
module PathRewrite {
  import opened Bytes

  /** bytes.ReplaceAll for a non-empty target: leftmost first, never inside a replacement. */
  function ReplaceAll(s: bytes, target: bytes, with: bytes): bytes
    requires target != []
  {
    if s == [] then []
    else if target <= s then with + ReplaceAll(s[|target|..], target, with)
    else [s[0]] + ReplaceAll(s[1..], target, with)
  }

  /** y laid over x from position k agrees with x wherever the two overlap. */
  predicate Meets(x: bytes, k: nat, y: bytes) {
    forall i :: k <= i < |x| && i - k < |y| ==> x[i] == y[i - k]
  }

  /** Neither path can occur across, inside or around the other. */
  predicate NeverMeet(template: bytes, copy: bytes) {
    && template != [] && copy != []
    && (forall k :: 0 <= k < |template| ==> !Meets(template, k, copy))
    && (forall k :: 0 <= k < |copy| ==> !Meets(copy, k, template))
  }

  /** Where the copy's path overlaps itself at k, the template's path after its first k bytes would be found earlier. */
  predicate SelfOverlapHidden(template: bytes, copy: bytes, k: nat)
    requires k <= |copy|
  {
    Meets(copy, k, copy) ==> exists j :: 0 <= j < k && template <= (copy[..k] + template)[j..]
  }

  /** The two directories are kept apart by their names: they are the same, or one is never mistaken for the other. */
  predicate Apart(template: bytes, copy: bytes) {
    && template != [] && copy != []
    && (template == copy || (NeverMeet(template, copy) && forall k :: 0 < k < |copy| ==> SelfOverlapHidden(template, copy, k)))
  }

  /** A block that no occurrence of the target can touch is copied as it stands. */
  lemma {:induction false} PassesOver(block: bytes, rest: bytes, target: bytes, with: bytes)
    requires target != []
    requires forall k :: 0 <= k < |block| ==> !Meets(block, k, target)
    ensures ReplaceAll(block + rest, target, with) == block + ReplaceAll(rest, target, with)
  {
    var s := block + rest;
    if block == [] {
      assert s == rest;
    } else {
      if target <= s {
        assert forall i :: 0 <= i < |block| && i < |target| ==> block[i] == s[i] == target[i];
        assert Meets(block, 0, target);
        assert false;
      }
      assert s[1..] == block[1..] + rest;
      forall k | 0 <= k < |block[1..]| ensures !Meets(block[1..], k, target) {
        assert !Meets(block, k + 1, target);
        var i :| k + 1 <= i < |block| && i - (k + 1) < |target| && block[i] != target[i - (k + 1)];
        assert block[1..][i - 1] != target[(i - 1) - k];
      }
      PassesOver(block[1..], rest, target, with);
      assert block == [block[0]] + block[1..];
    }
  }

  /** Up to any length, a rewritten text still reads as the original or has come to its first replacement. */
  lemma {:induction false} UnchangedUntilReplaced(s: bytes, target: bytes, with: bytes, n: nat)
    returns (j: nat)
    requires target != [] && n <= |ReplaceAll(s, target, with)|
    ensures j <= n && j <= |s| && ReplaceAll(s, target, with)[..j] == s[..j]
    ensures forall i :: 0 <= i < j ==> !(target <= s[i..])
    ensures j < n ==> target <= s[j..] && with <= ReplaceAll(s, target, with)[j..]
  {
    var r := ReplaceAll(s, target, with);
    if n == 0 || s == [] || target <= s {
      j := 0;
      assert s[0..] == s;
    } else {
      assert r[1..] == ReplaceAll(s[1..], target, with);
      var k := UnchangedUntilReplaced(s[1..], target, with, n - 1);
      j := k + 1;
      assert r[..j] == [s[0]] + r[1..][..k];
      assert s[..j] == [s[0]] + s[1..][..k];
      assert r[j..] == r[1..][k..] && s[j..] == s[1..][k..];
      forall i | 0 <= i < j ensures !(target <= s[i..]) {
        assert s[i..] == if i == 0 then s else s[1..][i - 1..];
      }
    }
  }

  lemma OverlapMeets(path: bytes, r: bytes, k: nat)
    requires k <= |r| && path <= r && path <= r[k..]
    ensures Meets(path, k, path)
  {
    forall i | k <= i < |path| && i - k < |path| ensures path[i] == path[i - k] {
      assert r[i] == r[k..][i - k];
    }
  }

  /** Where rewriting shows the copy's path and the template's did not start, the copy's was there before. */
  lemma NoPathAppears(s: bytes, template: bytes, copy: bytes)
    requires Apart(template, copy) && template != copy && s != [] && !(template <= s) && copy <= ReplaceAll(s, template, copy)
    ensures copy <= s
  {
    var r := ReplaceAll(s, template, copy);
    assert r[0] == s[0];
    var k := UnchangedUntilReplaced(s, template, copy, |copy|);
    assert k > 0 by { assert s[0..] == s; }
    if k < |copy| {
      OverlapMeets(copy, r, k);
      assert SelfOverlapHidden(template, copy, k);
      var j :| 0 <= j < k && template <= (copy[..k] + template)[j..];
      assert copy[..k] == r[..k] == s[..k];
      FoundEarlier(s, copy[..k], template, j);
      assert false;
    }
    assert copy == r[..|copy|] == s[..|copy|];
  }

  lemma FoundEarlier(s: bytes, before: bytes, template: bytes, j: nat)
    requires j <= |before| <= |s| && before == s[..|before|] && template <= s[|before|..] && template <= (before + template)[j..]
    ensures template <= s[j..]
  {
    var k := |before|;
    assert s[..k + |template|] == before + template by {
      assert s[..k + |template|][k..] == s[k..][..|template|];
    }
    assert s[j..][..|template|] == (before + template)[j..][..|template|];
  }

  /** Replacing a path by itself changes nothing. */
  lemma {:induction false} ReplaceBySelf(s: bytes, target: bytes)
    requires target != []
    ensures ReplaceAll(s, target, target) == s
    decreases |s|
  {
    if s != [] {
      if target <= s {
        ReplaceBySelf(s[|target|..], target);
        assert s == target + s[|target|..];
      } else {
        ReplaceBySelf(s[1..], target);
      }
    }
  }

  /** Seeding a settings file is invisible to the comparison, whatever paths it already holds. */
  lemma {:induction false} RewriteIsInvisible(s: bytes, template: bytes, copy: bytes)
    requires Apart(template, copy)
    ensures ReplaceAll(ReplaceAll(s, template, copy), copy, template) == ReplaceAll(s, copy, template)
    decreases |s|
  {
    if template == copy {
      ReplaceBySelf(s, copy);
    } else if s != [] {
      if copy <= s {
        var rest := s[|copy|..];
        assert s == copy + rest;
        PassesOver(copy, rest, template, copy);
        var r := ReplaceAll(rest, template, copy);
        assert (copy + r)[|copy|..] == r;
        RewriteIsInvisible(rest, template, copy);
      } else if template <= s {
        var rest := s[|template|..];
        assert s == template + rest;
        PassesOver(template, rest, copy, template);
        var r := ReplaceAll(rest, template, copy);
        assert (copy + r)[|copy|..] == r;
        RewriteIsInvisible(rest, template, copy);
      } else {
        var r := ReplaceAll(s, template, copy);
        if copy <= r { NoPathAppears(s, template, copy); assert false; }
        assert r[1..] == ReplaceAll(s[1..], template, copy);
        RewriteIsInvisible(s[1..], template, copy);
      }
    }
  }

  predicate Mentions(s: bytes, target: bytes) {
    exists i :: 0 <= i <= |s| && target <= s[i..]
  }

  /** Comparing undoes seeding exactly on a file that does not name the copy already. */
  lemma RestoreUndoesRewrite(s: bytes, template: bytes, copy: bytes)
    requires Apart(template, copy) && template != copy
    ensures ReplaceAll(ReplaceAll(s, template, copy), copy, template) == s <==> !Mentions(s, copy)
  {
    RewriteIsInvisible(s, template, copy);
    assert !Meets(template, 0, copy) && !Meets(copy, 0, template);
    FixedIffUnmentioned(s, copy, template);
  }

  lemma {:induction false} FixedIffUnmentioned(s: bytes, target: bytes, with: bytes)
    requires target != [] && !(with <= target) && !(target <= with)
    ensures ReplaceAll(s, target, with) == s <==> !Mentions(s, target)
  {
    if s == [] {
    } else if target <= s {
      assert target <= s[0..];
      var r := ReplaceAll(s, target, with);
      assert with <= r;
      if r == s { PrefixesCompare(with, target, s); }
    } else {
      FixedIffUnmentioned(s[1..], target, with);
      MentionsAfter(s, target);
      var r, rest := ReplaceAll(s, target, with), ReplaceAll(s[1..], target, with);
      assert r == [s[0]] + rest;
      hide ReplaceAll, Mentions;
      if rest == s[1..] { assert r == s; }
      if r == s { assert rest == r[1..]; }
    }
  }

  lemma MentionsAfter(s: bytes, target: bytes)
    requires s != [] && !(target <= s)
    ensures Mentions(s, target) <==> Mentions(s[1..], target)
  {
    if Mentions(s, target) {
      var i :| 0 <= i <= |s| && target <= s[i..];
      assert s[i..] == if i == 0 then s else s[1..][i - 1..];
    }
    if Mentions(s[1..], target) {
      var i :| 0 <= i <= |s[1..]| && target <= s[1..][i..];
      assert s[1..][i..] == s[i + 1..];
    }
  }

  lemma PrefixesCompare(a: bytes, b: bytes, s: bytes)
    requires a <= s && b <= s
    ensures a <= b || b <= a
  {
  }
}
