/**
 * `--auth USER:PASSWORD` (src/main.rs `parse_authorization`): the argument is
 * split on every `:`; one piece is a user without password, two pieces are a
 * user and a password, more pieces are rejected.
 */
module Auth {
  import opened Wrappers

  /** `str::split(sep)` collected: the pieces between separators, never an empty list. */
  function Split(s: string, sep: char): (pieces: seq<string>)
    ensures |pieces| > 0
  {
    if |s| == 0 then [[]]
    else
      var rest := Split(s[1..], sep);
      if s[0] == sep then [[]] + rest else [[s[0]] + rest[0]] + rest[1..]
  }

  /** The pieces glued back together with `sep` between neighbours. */
  function Join(pieces: seq<string>, sep: char): string
    requires |pieces| > 0
  {
    if |pieces| == 1 then pieces[0] else pieces[0] + [sep] + Join(pieces[1..], sep)
  }

  lemma JoinExtendFirst(pieces: seq<string>, sep: char, c: char)
    requires |pieces| > 0
    ensures Join([[c] + pieces[0]] + pieces[1..], sep) == [c] + Join(pieces, sep)
  {
    var ps := [[c] + pieces[0]] + pieces[1..];
    assert ps[1..] == pieces[1..];
  }

  /** There is one piece more than there are separators, and no piece contains one. */
  lemma {:induction false} SplitPieces(s: string, sep: char)
    ensures |Split(s, sep)| == multiset(s)[sep] + 1
    ensures forall i :: 0 <= i < |Split(s, sep)| ==> sep !in Split(s, sep)[i]
  {
    if |s| > 0 {
      SplitPieces(s[1..], sep);
      assert s == [s[0]] + s[1..];
      assert multiset(s) == multiset{s[0]} + multiset(s[1..]);
      var rest := Split(s[1..], sep);
      if s[0] != sep {
        assert Split(s, sep)[1..] == rest[1..];
      } else {
        assert Split(s, sep)[1..] == rest;
      }
    }
  }

  /** Joining the pieces gives back the split string. */
  lemma {:induction false} JoinSplit(s: string, sep: char)
    ensures Join(Split(s, sep), sep) == s
  {
    if |s| > 0 {
      JoinSplit(s[1..], sep);
      var rest := Split(s[1..], sep);
      assert s == [s[0]] + s[1..];
      if s[0] == sep {
        assert ([[]] + rest)[1..] == rest;
      } else {
        JoinExtendFirst(rest, sep, s[0]);
      }
    }
  }

  /** Splitting undoes joining pieces that do not contain the separator. */
  lemma {:induction false} SplitJoin(pieces: seq<string>, sep: char)
    requires |pieces| > 0
    requires forall i :: 0 <= i < |pieces| ==> sep !in pieces[i]
    ensures Split(Join(pieces, sep), sep) == pieces
    decreases |Join(pieces, sep)|
  {
    var s := Join(pieces, sep);
    if |pieces[0]| == 0 {
      if |pieces| > 1 {
        assert s == [sep] + Join(pieces[1..], sep);
        assert s[1..] == Join(pieces[1..], sep);
        SplitJoin(pieces[1..], sep);
      }
    } else {
      var tail := [pieces[0][1..]] + pieces[1..];
      assert tail[1..] == pieces[1..];
      assert forall i :: 0 <= i < |tail| ==> sep !in tail[i] by {
        assert sep !in pieces[0];
      }
      JoinExtendFirst(tail, sep, pieces[0][0]);
      assert [pieces[0][0]] + tail[0] == pieces[0];
      assert [[pieces[0][0]] + tail[0]] + tail[1..] == pieces;
      assert s == [pieces[0][0]] + Join(tail, sep);
      assert s[1..] == Join(tail, sep);
      SplitJoin(tail, sep);
    }
  }

  /** HTTP Basic credentials. */
  datatype Basic = Basic(username: string, password: Option<string>)

  /** Neither field contains a `:`, so the credentials survive `user:password` syntax. */
  predicate ColonFree(b: Basic)
  {
    ':' !in b.username && (b.password.Some? ==> ':' !in b.password.value)
  }

  /** The `USER[:PASSWORD]` text the credentials are written as. */
  function Credentials(b: Basic): string
  {
    match b.password
    case None => b.username
    case Some(p) => b.username + ":" + p
  }

  /**
   * Rejects the argument exactly when it has two or more colons; otherwise the
   * credentials returned are the colon-free ones the argument spells out.
   */
  function ParseAuthorization(userPassword: string): (r: Option<Basic>)
    ensures r.None? <==> multiset(userPassword)[':'] >= 2
    ensures r.Some? ==> ColonFree(r.value) && Credentials(r.value) == userPassword
    ensures multiset(userPassword)[':'] == 0 ==> r == Some(Basic(userPassword, None))
    ensures multiset(userPassword)[':'] == 1 ==> r.Some? && r.value.password.Some?
  {
    var v := Split(userPassword, ':');
    SplitPieces(userPassword, ':');
    JoinSplit(userPassword, ':');
    if |v| > 2 then None
    else
      assert |v| == 2 ==> Join(v, ':') == v[0] + ":" + v[1];
      Some(Basic(v[0], if |v| > 1 then Some(v[1]) else None))
  }

  /** Colon-free credentials written as `USER[:PASSWORD]` parse back to themselves; `"u:"` gives password `Some("")`. */
  lemma ParseCredentials(b: Basic)
    requires ColonFree(b)
    ensures ParseAuthorization(Credentials(b)) == Some(b)
  {
    match b.password
    case None =>
      SplitJoin([b.username], ':');
    case Some(p) =>
      assert Join([b.username, p], ':') == b.username + ":" + p;
      SplitJoin([b.username, p], ':');
  }

  /** `ParseAuthorization` and `Credentials` are inverse on colon-free credentials. */
  lemma ParseIffCredentials(s: string, b: Basic)
    ensures ParseAuthorization(s) == Some(b) <==> ColonFree(b) && Credentials(b) == s
  {
    if ColonFree(b) && Credentials(b) == s {
      ParseCredentials(b);
    }
  }
}
