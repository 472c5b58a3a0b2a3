/** The selection: an ordered list of country codes, updated by the list-row click
    handler (toggle) and by the chip delete handler (remove). */
module Selection {
  import opened Subsequence

  type Code = string

  /** No code appears twice. */
  predicate NoDuplicates(s: seq<Code>) {
    forall i, j :: 0 <= i < j < |s| ==> s[i] != s[j]
  }

  /** `s.filter((item) => item !== code)`: every occurrence of `code` removed,
      the other codes kept with their multiplicities. */
  function Without(s: seq<Code>, code: Code): (r: seq<Code>)
    ensures code !in r
    ensures forall x :: x in r <==> x in s && x != code
    ensures multiset(r) == multiset(s)[code := 0]
    ensures |r| <= |s|
    ensures code in s ==> |r| < |s|
  {
    if s == [] then []
    else
      assert s == [s[0]] + s[1..];
      if s[0] == code then Without(s[1..], code)
      else [s[0]] + Without(s[1..], code)
  }

  /** `handleCountryClick`: remove the code if it is selected, else append it. */
  function Toggle(s: seq<Code>, code: Code): (r: seq<Code>)
    ensures code in r <==> code !in s
    ensures forall x :: x != code ==> (x in r <==> x in s)
    ensures code !in s ==> |r| == |s| + 1 && r[..|s|] == s && r[|s|] == code
    ensures code in s ==> |r| < |s| && multiset(r) == multiset(s)[code := 0]
  {
    if code in s then Without(s, code) else s + [code]
  }

  /** Removing a code keeps the remaining codes in their original relative order. */
  lemma {:induction false} WithoutIsSubsequence(s: seq<Code>, code: Code)
    ensures IsSubseq(Without(s, code), s)
  {
    if s != [] {
      WithoutIsSubsequence(s[1..], code);
      var rest := Without(s[1..], code);
      if s[0] == code {
        if rest != [] { assert IsSubseq(rest, s[1..]); }
      } else {
        assert Without(s, code) == [s[0]] + rest;
        assert ([s[0]] + rest)[1..] == rest;
      }
    }
  }

  /** Removing a code that is not selected changes nothing. */
  lemma {:induction false} WithoutAbsent(s: seq<Code>, code: Code)
    requires code !in s
    ensures Without(s, code) == s
  {
    if s != [] {
      assert code !in s[1..];
      WithoutAbsent(s[1..], code);
      assert s == [s[0]] + s[1..];
    }
  }

  /** Remove is idempotent. */
  lemma WithoutIdempotent(s: seq<Code>, code: Code)
    ensures Without(Without(s, code), code) == Without(s, code)
  {
  }

  /** Removal distributes over concatenation. */
  lemma {:induction false} WithoutAppend(a: seq<Code>, b: seq<Code>, code: Code)
    ensures Without(a + b, code) == Without(a, code) + Without(b, code)
  {
    if a == [] {
      assert a + b == b;
    } else {
      assert (a + b)[0] == a[0];
      assert (a + b)[1..] == a[1..] + b;
      WithoutAppend(a[1..], b, code);
    }
  }

  /** Removal keeps a duplicate-free selection duplicate-free. */
  lemma {:induction false} WithoutNoDuplicates(s: seq<Code>, code: Code)
    requires NoDuplicates(s)
    ensures NoDuplicates(Without(s, code))
  {
    if s != [] {
      assert NoDuplicates(s[1..]) by {
        forall i, j | 0 <= i < j < |s[1..]| ensures s[1..][i] != s[1..][j] {
          assert s[1..][i] == s[i + 1] && s[1..][j] == s[j + 1];
        }
      }
      WithoutNoDuplicates(s[1..], code);
      var rest := Without(s[1..], code);
      if s[0] != code {
        assert s[0] !in s[1..] by {
          forall k | 0 <= k < |s[1..]| ensures s[1..][k] != s[0] {
            assert s[1..][k] == s[k + 1];
          }
        }
        assert s[0] !in rest;
        var r := [s[0]] + rest;
        forall i, j | 0 <= i < j < |r| ensures r[i] != r[j] {
          if i == 0 { assert r[j] == rest[j - 1]; assert r[j] in rest; }
          else { assert r[i] == rest[i - 1] && r[j] == rest[j - 1]; }
        }
      }
    }
  }

  /** Toggling keeps a duplicate-free selection duplicate-free. */
  lemma ToggleNoDuplicates(s: seq<Code>, code: Code)
    requires NoDuplicates(s)
    ensures NoDuplicates(Toggle(s, code))
  {
    if code in s {
      WithoutNoDuplicates(s, code);
    } else {
      var r := s + [code];
      forall i, j | 0 <= i < j < |r| ensures r[i] != r[j] {
        if j == |s| { assert r[i] == s[i]; } else { assert r[i] == s[i] && r[j] == s[j]; }
      }
    }
  }

  /** Toggling a selected code removes every occurrence of it and keeps the
      other codes in their original relative order. */
  lemma ToggleSelectedKeepsOrder(s: seq<Code>, code: Code)
    requires code in s
    ensures Toggle(s, code) == Without(s, code)
    ensures IsSubseq(Toggle(s, code), s)
  {
    WithoutIsSubsequence(s, code);
  }

  /** Toggling an unselected code twice restores the selection exactly. */
  lemma ToggleTwiceAbsent(s: seq<Code>, code: Code)
    requires code !in s
    ensures Toggle(Toggle(s, code), code) == s
  {
    assert code in s + [code];
    WithoutAppend(s, [code], code);
    WithoutAbsent(s, code);
    assert Without([code], code) == [];
  }

  /** Toggling a selected code twice moves it to the end of the selection. */
  lemma ToggleTwicePresent(s: seq<Code>, code: Code)
    requires code in s
    ensures Toggle(Toggle(s, code), code) == Without(s, code) + [code]
  {
  }

  /** So toggling twice is not an involution: ["a", "b"] becomes ["b", "a"]. */
  lemma ToggleTwiceReorders()
    ensures Toggle(Toggle(["a", "b"], "a"), "a") == ["b", "a"]
  {
  }
}
