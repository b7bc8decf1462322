/** POST api/users/search (routes/api/users.js lines 101-122): the users whose lowercased
    username contains at least one of the space-separated words of `searchText`. */
module UserSearch {
  import opened Outcomes
  import opened Models
  import opened JsArray

  /** `s.split(c)` for a one-character separator: the pieces between separators, an
      empty piece wherever two separators touch or one sits at an end. Defined one
      character at a time: a separator starts a new piece, any other character joins
      the first piece of the rest. */
  function Split(s: string, c: char): (r: seq<string>)
    ensures |r| >= 1
    decreases |s|
  {
    if |s| == 0 then [""]
    else
      var rest := Split(s[1..], c);
      if s[0] == c then [""] + rest else [[s[0]] + rest[0]] + rest[1..]
  }

  /** No piece contains the separator. */
  lemma {:induction false} SplitPiecesFree(s: string, c: char)
    ensures forall k :: 0 <= k < |Split(s, c)| ==> c !in Split(s, c)[k]
    decreases |s|
  {
    if |s| > 0 {
      SplitPiecesFree(s[1..], c);
      var rest := Split(s[1..], c);
      if s[0] != c {
        assert c !in [s[0]] + rest[0];
        forall k | 1 <= k < |Split(s, c)|
          ensures Split(s, c)[k] == rest[k]
        {
        }
      }
    }
  }

  /** `pieces.join(c)`, the inverse of `Split`. */
  function Join(pieces: seq<string>, c: char): string
    requires |pieces| >= 1
  {
    if |pieces| == 1 then pieces[0] else pieces[0] + [c] + Join(pieces[1..], c)
  }

  /** Joining a piece in front of at least one other puts the separator between them. */
  lemma JoinCons(piece: string, pieces: seq<string>, c: char)
    requires |pieces| >= 1
    ensures Join([piece] + pieces, c) == piece + [c] + Join(pieces, c)
  {
    assert ([piece] + pieces)[1..] == pieces;
  }

  /** Growing the first piece grows the joined text at the front. */
  lemma JoinExtendFirst(ch: char, pieces: seq<string>, c: char)
    requires |pieces| >= 1
    ensures Join([[ch] + pieces[0]] + pieces[1..], c) == [ch] + Join(pieces, c)
  {
    if |pieces| > 1 {
      JoinCons([ch] + pieces[0], pieces[1..], c);
    }
  }

  /** Splitting loses nothing: joining the pieces gives the text back. */
  lemma {:induction false} JoinSplit(s: string, c: char)
    ensures Join(Split(s, c), c) == s
    decreases |s|
  {
    if |s| > 0 {
      var rest := Split(s[1..], c);
      JoinSplit(s[1..], c);
      if s[0] == c {
        JoinCons("", rest, c);
      } else {
        JoinExtendFirst(s[0], rest, c);
      }
      assert [s[0]] + s[1..] == s;
    }
  }

  /** `toLowerCase` on ASCII letters. */
  function LowerChar(ch: char): (r: char)
    ensures 'A' <= ch <= 'Z' ==> 'a' <= r <= 'z' && r as int == ch as int + 32
    ensures !('A' <= ch <= 'Z') ==> r == ch
  {
    if 'A' <= ch <= 'Z' then (ch as int - 'A' as int + 'a' as int) as char else ch
  }

  function Lower(s: string): (r: string)
    ensures |r| == |s| && forall i :: 0 <= i < |s| ==> r[i] == LowerChar(s[i])
  {
    seq(|s|, i requires 0 <= i < |s| => LowerChar(s[i]))
  }

  /** `needle` sits in `hay` starting at position `i`. */
  predicate OccursAt(hay: string, needle: string, i: int)
  {
    0 <= i <= |hay| - |needle| && hay[i..i + |needle|] == needle
  }

  /** `hay.includes(needle)`: the needle occurs at some position of the text. */
  function Contains(hay: string, needle: string): (b: bool)
    ensures b <==> exists i :: OccursAt(hay, needle, i)
    ensures needle == [] ==> b
    decreases |hay|
  {
    if |hay| < |needle| then false
    else if hay[..|needle|] == needle then
      assert OccursAt(hay, needle, 0);
      true
    else
      var rest := Contains(hay[1..], needle);
      ContainsShift(hay, needle);
      rest
  }

  /** With no occurrence at the first position, an occurrence in the text is one in its
      tail, shifted by one. */
  lemma ContainsShift(hay: string, needle: string)
    requires |needle| <= |hay| && hay[..|needle|] != needle
    ensures (exists i :: OccursAt(hay, needle, i)) <==> (exists j :: OccursAt(hay[1..], needle, j))
  {
    if exists i :: OccursAt(hay, needle, i) {
      var i :| OccursAt(hay, needle, i);
      assert i != 0 by {
        assert hay[0..0 + |needle|] == hay[..|needle|];
      }
      assert hay[1..][i - 1..i - 1 + |needle|] == hay[i..i + |needle|];
      assert OccursAt(hay[1..], needle, i - 1);
    }
    if exists j :: OccursAt(hay[1..], needle, j) {
      var j :| OccursAt(hay[1..], needle, j);
      assert hay[j + 1..j + 1 + |needle|] == hay[1..][j..j + |needle|];
      assert OccursAt(hay, needle, j + 1);
    }
  }

  /** Line 113: the lowercased username includes the lowercased word. */
  predicate WordMatches(u: User, w: string)
  {
    Contains(Lower(u.username), Lower(w))
  }

  /** A user is kept when at least one search word matches: the inner `filter(...).length
      > 0` at lines 112-115. */
  function Matches(u: User, words: seq<string>): bool
  {
    |Filter(words, (w: string) => WordMatches(u, w))| > 0
  }

  /** The inner filter is an existential over the words. */
  lemma MatchesSomeWord(u: User, words: seq<string>)
    ensures Matches(u, words) <==> exists w :: w in words && WordMatches(u, w)
  {
    var hits := Filter(words, (w: string) => WordMatches(u, w));
    if |hits| > 0 {
      assert hits[0] in hits;
    }
  }

  /** `searchText` absent makes `split` throw (500). The `searchTexts === []` test at
      line 107 compares with a fresh array and never holds. */
  function Search(users: seq<User>, searchText: Option<string>): (r: Result<seq<User>>)
    ensures r.Failure? <==> searchText.None?
    ensures r.Success? ==> IsSubseq(r.value, users)
  {
    match searchText
    case None => Failure(ServerError)
    case Some(text) =>
      var words := Split(text, ' ');
      FilterIsSubseq(users, (u: User) => Matches(u, words));
      Success(Filter(users, (u: User) => Matches(u, words)))
  }

  /** A user is in the result exactly when some word of the search text, lowercased, occurs
      in its lowercased username. */
  lemma SearchKeeps(users: seq<User>, text: string, u: User)
    ensures u in Search(users, Some(text)).value <==>
      u in users && exists w :: w in Split(text, ' ') && Contains(Lower(u.username), Lower(w))
  {
    var words := Split(text, ' ');
    MatchesSomeWord(u, words);
    assert Search(users, Some(text)).value == Filter(users, (v: User) => Matches(v, words));
  }

  /** A search text with an empty word (an empty text, a leading, trailing or doubled
      space) matches every user. */
  lemma EmptyWordMatchesAll(users: seq<User>, text: string)
    requires "" in Split(text, ' ')
    ensures Search(users, Some(text)) == Success(users)
  {
    var words := Split(text, ' ');
    forall i | 0 <= i < |users|
      ensures Matches(users[i], words)
    {
      var hits := Filter(words, (w: string) => WordMatches(users[i], w));
      assert Lower("") == "";
      assert "" in hits;
    }
    FilterAll(users, (u: User) => Matches(u, words));
  }

  /** An empty search text returns every user. */
  lemma EmptySearchMatchesAll(users: seq<User>)
    ensures Search(users, Some("")) == Success(users)
  {
    assert Split("", ' ') == [""];
    EmptyWordMatchesAll(users, "");
  }

  /** A separator that ends the text or is followed by another separator leaves an empty
      piece after it, which is not the first piece. */
  lemma {:induction false} EmptyPieceAfter(s: string, c: char, i: nat)
    requires i < |s| && s[i] == c
    requires i + 1 == |s| || s[i + 1] == c
    ensures exists k :: 1 <= k < |Split(s, c)| && Split(s, c)[k] == ""
    decreases |s|
  {
    var r := Split(s, c);
    var rest := Split(s[1..], c);
    if i == 0 {
      if |s| == 1 {
        assert rest == [""];
      } else {
        assert rest == [""] + Split(s[2..], c);
      }
      assert r[1] == "";
    } else {
      EmptyPieceAfter(s[1..], c, i - 1);
      var k :| 1 <= k < |rest| && rest[k] == "";
      if s[0] == c {
        assert r[k + 1] == "";
      } else {
        assert r[k] == "";
      }
    }
  }

  /** A space at the start, at the end, or next to another space makes an empty word. */
  lemma SpaceMakesEmptyWord(s: string, i: nat)
    requires i < |s| && s[i] == ' '
    requires i == 0 || i + 1 == |s| || s[i + 1] == ' '
    ensures "" in Split(s, ' ')
  {
    if i == 0 {
      assert Split(s, ' ')[0] == "";
    } else {
      EmptyPieceAfter(s, ' ', i);
    }
  }

  /** A search text with a leading, trailing or doubled space returns every user. */
  lemma SpacedSearchMatchesAll(users: seq<User>, text: string, i: nat)
    requires i < |text| && text[i] == ' '
    requires i == 0 || i + 1 == |text| || text[i + 1] == ' '
    ensures Search(users, Some(text)) == Success(users)
  {
    SpaceMakesEmptyWord(text, i);
    EmptyWordMatchesAll(users, text);
  }
}
