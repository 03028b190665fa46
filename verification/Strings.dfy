/** Finding one text inside another, as strings.Index and strings.Contains do. */
module Strings {

  /** The first place where sep occurs in s, -1 when it does not. */
  function IndexOf(s: string, sep: string): (i: int)
    ensures -1 <= i && (i >= 0 ==> i + |sep| <= |s| && s[i..i + |sep|] == sep)
  {
    if sep <= s then 0
    else if s == "" then -1
    else
      var i := IndexOf(s[1..], sep);
      assert i >= 0 ==> s[i + 1..i + 1 + |sep|] == s[1..][i..i + |sep|];
      if i < 0 then -1 else i + 1
  }

  predicate OccursAt(s: string, sub: string, i: nat) {
    i + |sub| <= |s| && s[i..i + |sub|] == sub
  }

  predicate Contains(s: string, sub: string) {
    exists i: nat | i <= |s| :: OccursAt(s, sub, i)
  }

  /** IndexOf finds a place exactly if there is one. */
  lemma FoundIffContained(s: string, sep: string)
    ensures IndexOf(s, sep) >= 0 <==> Contains(s, sep)
  {
    if IndexOf(s, sep) >= 0 {
      assert OccursAt(s, sep, IndexOf(s, sep));
    } else {
      NowhereInside(s, sep);
    }
  }

  lemma OccursInTail(s: string, sep: string, i: nat)
    requires 0 < i && i + |sep| <= |s|
    ensures OccursAt(s, sep, i) ==> OccursAt(s[1..], sep, i - 1)
  {
    var rest := s[1..];
    var here, there := s[i..i + |sep|], rest[i - 1..i - 1 + |sep|];
    forall k | 0 <= k < |sep| ensures here[k] == there[k] {
      assert s[i + k] == rest[i - 1 + k];
    }
  }

  lemma {:induction false} NowhereInside(s: string, sep: string)
    requires IndexOf(s, sep) < 0
    ensures !Contains(s, sep)
  {
    if s != "" {
      NowhereInside(s[1..], sep);
    }
    forall i: nat | i <= |s| ensures !OccursAt(s, sep, i) {
      if i == 0 {
        assert OccursAt(s, sep, 0) ==> sep <= s;
      } else if i + |sep| <= |s| {
        OccursInTail(s, sep, i);
      }
    }
  }

  lemma LongerNotContained(s: string, sub: string)
    requires |s| < |sub|
    ensures !Contains(s, sub)
  {
  }

  lemma PrefixIsContained(s: string, prefix: string)
    requires prefix <= s
    ensures Contains(s, prefix)
  {
    assert OccursAt(s, prefix, 0);
  }
}
