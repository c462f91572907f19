/**
 * The two input patterns the pages share: the e-mail pattern ^[^\s@]+@[^\s@]+\.[^\s@]+$
 * and the nickname pattern ^[a-zA-Z0-9가-힣_]{3,50}$.
 */
module Patterns {
  import opened Text

  /** The class [^\s@]. */
  predicate EmailChar(c: char)
  {
    !IsSpace(c) && c != '@'
  }

  /** The e-mail pattern matches s with its '@' at k and its literal '.' at j: one or more
      [^\s@] before k, between k and j, and after j. */
  predicate EmailSplit(s: string, k: int, j: int)
  {
    0 < k && k + 1 < j && j + 1 < |s| && s[k] == '@' && s[j] == '.' &&
    forall i :: 0 <= i < |s| && i != k ==> EmailChar(s[i])
  }

  /** The regular expression's meaning: some way of matching exists. */
  ghost predicate EmailPattern(s: string)
  {
    exists k, j :: EmailSplit(s, k, j)
  }

  /** No character of s is whitespace, checked left to right. */
  predicate NoSpace(s: string)
  {
    s == [] || (!IsSpace(s[0]) && NoSpace(s[1..]))
  }

  lemma {:induction false} NoSpaceIff(s: string)
    ensures NoSpace(s) <==> forall i :: 0 <= i < |s| ==> !IsSpace(s[i])
  {
    if s != [] {
      NoSpaceIff(s[1..]);
      assert forall i :: 0 <= i < |s[1..]| ==> s[1..][i] == s[i + 1];
    }
  }

  /** c occurs in s, checked left to right. */
  predicate HasChar(s: string, c: char)
  {
    s != [] && (s[0] == c || HasChar(s[1..], c))
  }

  lemma {:induction false} HasCharIff(s: string, c: char)
    ensures HasChar(s, c) <==> c in s
  {
    if s != [] {
      HasCharIff(s[1..], c);
      assert s == [s[0]] + s[1..];
    }
  }

  /** A direct check: no whitespace, exactly one '@', not first, and a '.' after it with at
      least one character on each side. */
  predicate IsEmail(s: string)
  {
    var k := IndexOf(s, '@');
    1 <= k && k + 3 <= |s| && NoSpace(s) &&
    !HasChar(s[k + 1..], '@') && HasChar(s[k + 2..|s| - 1], '.')
  }

  /** A string passing the direct check matches with its first '@' and the first '.' two
      or more characters after it. */
  lemma {:induction false} CheckedIsEmail(s: string)
    requires IsEmail(s)
    ensures EmailPattern(s)
  {
    var k := IndexOf(s, '@');
    NoSpaceIff(s);
    HasCharIff(s[k + 1..], '@');
    HasCharIff(s[k + 2..|s| - 1], '.');
    var d := s[k + 2..|s| - 1];
    var m :| 0 <= m < |d| && d[m] == '.';
    var j := k + 2 + m;
    assert s[j] == '.';
    forall i | 0 <= i < |s| && i != k
      ensures EmailChar(s[i])
    {
      if i < k {
        assert s[..k][i] == s[i];
      } else {
        assert s[k + 1..][i - k - 1] == s[i];
      }
    }
    assert EmailSplit(s, k, j);
  }

  /** Any match passes the direct check: its '@' is the only one, so IndexOf finds it. */
  lemma {:induction false} EmailIsChecked(s: string, k: int, j: int)
    requires EmailSplit(s, k, j)
    ensures IsEmail(s)
  {
    assert '@' !in s[..k] by {
      forall i | 0 <= i < k ensures s[..k][i] != '@' {
        assert EmailChar(s[i]);
      }
    }
    IndexOfAt(s, '@', k);
    var tail := s[k + 1..];
    assert '@' !in tail by {
      forall i | 0 <= i < |tail| ensures tail[i] != '@' {
        assert tail[i] == s[k + 1 + i];
        assert EmailChar(s[k + 1 + i]);
      }
    }
    HasCharIff(tail, '@');
    var d := s[k + 2..|s| - 1];
    assert d[j - k - 2] == '.';
    HasCharIff(d, '.');
    assert forall i :: 0 <= i < |s| ==> !IsSpace(s[i]) by {
      forall i | 0 <= i < |s| ensures !IsSpace(s[i]) {
        if i != k {
          assert EmailChar(s[i]);
        }
      }
    }
    NoSpaceIff(s);
  }

  /** The direct check decides the pattern exactly. */
  lemma EmailPatternIff(s: string)
    ensures IsEmail(s) <==> EmailPattern(s)
  {
    if IsEmail(s) {
      CheckedIsEmail(s);
    }
    if EmailPattern(s) {
      var k, j :| EmailSplit(s, k, j);
      EmailIsChecked(s, k, j);
    }
  }

  /** The class [a-zA-Z0-9가-힣_]: ASCII letters and digits, the Hangul syllables
      U+AC00..U+D7A3, and underscore. */
  predicate NicknameChar(c: char)
  {
    ('a' <= c <= 'z') || ('A' <= c <= 'Z') || ('0' <= c <= '9') || ('\U{AC00}' <= c <= '\U{D7A3}') || c == '_'
  }

  /** ^[a-zA-Z0-9가-힣_]{3,50}$ */
  predicate NicknamePattern(s: string)
  {
    3 <= |s| <= 50 && forall i :: 0 <= i < |s| ==> NicknameChar(s[i])
  }

  /** The two patterns never both match, and only the e-mail pattern admits an '@': what
      the server's "contains @" test for choosing a lookup relies on. */
  lemma PatternsDisjoint(s: string)
    ensures EmailPattern(s) ==> '@' in s
    ensures NicknamePattern(s) ==> '@' !in s && !EmailPattern(s)
  {
    if EmailPattern(s) {
      var k, j :| EmailSplit(s, k, j);
      assert s[k] == '@';
    }
  }
}
