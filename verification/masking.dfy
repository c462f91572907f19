/**
 * The masking shared by UserInfoResponse, Board and Comment: an e-mail keeps its first
 * character and everything from the first '@', the rest of the local part becomes '*';
 * a nickname keeps its first and last characters.
 */
module Masking {
  import opened Text

  /** The e-mail has an '@' at index 2 or later, the case in which it is masked. */
  predicate Maskable(email: string)
  {
    |email| >= 3 && email[0] != '@' && email[1] != '@' && '@' in email
  }

  /** The e-mail masking once the null checks are past: indexOf('@') <= 1 returns it as is. */
  function MaskEmail(email: string): (r: string)
    ensures |r| == |email|
    ensures !Maskable(email) ==> r == email
  {
    var atIndex := IndexOf(email, '@');
    if atIndex <= 1 then email
    else [email[0]] + Repeat('*', atIndex - 1) + email[atIndex..]
  }

  /** Character by character: in a maskable e-mail the first character and everything from
      the first '@' on are kept, every other character becomes '*'. */
  lemma MaskEmailChars(email: string)
    requires Maskable(email)
    ensures forall i :: 0 <= i < |email| ==>
      MaskEmail(email)[i] == (if 0 < i && '@' !in email[..i + 1] then '*' else email[i])
  {
    var atIndex := IndexOf(email, '@');
    var r := MaskEmail(email);
    assert email[..atIndex][0] == email[0];
    assert email[..atIndex][1] == email[1];
    forall i | 0 <= i < |email|
      ensures r[i] == (if 0 < i && '@' !in email[..i + 1] then '*' else email[i])
    {
      if i < atIndex {
        assert email[..i + 1] == email[..atIndex][..i + 1];
      } else {
        assert email[..i + 1][atIndex] == '@';
      }
    }
  }

  /** Masking a masked e-mail changes nothing: the first '@' does not move. */
  lemma MaskEmailIdempotent(email: string)
    ensures MaskEmail(MaskEmail(email)) == MaskEmail(email)
  {
    var k := IndexOf(email, '@');
    if k > 1 {
      var stars := Repeat('*', k - 1);
      var tail := email[k..];
      var r := [email[0]] + stars + tail;
      assert MaskEmail(email) == r;
      assert email[0] != '@' by {
        assert email[..k][0] == email[0];
      }
      assert r[k] == '@' by {
        assert r[k] == tail[0];
      }
      assert '@' !in r[..k] by {
        forall i | 0 <= i < k ensures r[..k][i] != '@' {
          if i > 0 {
            assert r[i] == stars[i - 1];
          }
        }
      }
      IndexOfAt(r, '@', k);
      assert r[k..] == tail;
      assert [r[0]] + Repeat('*', k - 1) + r[k..] == r;
      assert MaskEmail(r) == r;
    } else {
      assert MaskEmail(email) == email;
    }
  }

  /** The nickname masking once the null check is past: up to two characters stay as they are. */
  function MaskNickname(nickname: string): (r: string)
    ensures |r| == |nickname|
    ensures |nickname| <= 2 ==> r == nickname
    ensures |nickname| > 2 ==>
      (r[0] == nickname[0] && r[|r| - 1] == nickname[|nickname| - 1] &&
       forall i :: 0 < i < |r| - 1 ==> r[i] == '*')
  {
    if |nickname| <= 2 then nickname
    else [nickname[0]] + Repeat('*', |nickname| - 2) + [nickname[|nickname| - 1]]
  }

  /** Masking a masked nickname changes nothing. */
  lemma MaskNicknameIdempotent(nickname: string)
    ensures MaskNickname(MaskNickname(nickname)) == MaskNickname(nickname)
  {
    var r := MaskNickname(nickname);
    if |nickname| > 2 {
      assert MaskNickname(r) == r;
    }
  }
}
