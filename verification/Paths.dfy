/** Strings split at a separator, and the components of a file path. */
module Paths {
  import opened Basics

  /** The pieces between the separators; one more than there are separators. */
  ghost function Split(s: string, sep: char): (pieces: seq<string>)
    ensures pieces != []
  {
    if s == "" then [""] else
      var n := |s| - 1;
      var before := Split(s[..n], sep);
      var last := |before| - 1;
      if s[n] == sep then before + [""] else before[last := before[last] + [s[n]]]
  }

  /** The pieces put together again. */
  ghost function Joined(pieces: seq<string>, sep: char): string
    requires pieces != []
  {
    var n := |pieces| - 1;
    if n == 0 then pieces[0] else Joined(pieces[..n], sep) + [sep] + pieces[n]
  }

  lemma JoinedLast(pieces: seq<string>, sep: char, last: string)
    requires pieces != []
    ensures Joined(pieces[|pieces| - 1 := pieces[|pieces| - 1] + last], sep) == Joined(pieces, sep) + last
  {
    var n := |pieces| - 1;
    assert pieces[n := pieces[n] + last][..n] == pieces[..n];
  }

  /** Splitting loses nothing, and no piece contains the separator. */
  lemma {:induction false} SplitMeaning(s: string, sep: char)
    ensures Joined(Split(s, sep), sep) == s
    ensures forall p :: p in Split(s, sep) ==> sep !in p
  {
    if s != "" {
      var n := |s| - 1;
      var before := Split(s[..n], sep);
      SplitMeaning(s[..n], sep);
      assert s == s[..n] + [s[n]];
      hide Split, Joined;
      if s[n] == sep {
        JoinedEmpty(before, sep);
      } else {
        JoinedLast(before, sep, [s[n]]);
        PieceMembers(before, before[|before| - 1] + [s[n]]);
      }
      SplitMore(s, sep);
    }
  }

  lemma SplitEmpty(sep: char)
    ensures Split("", sep) == [""]
  {
  }

  lemma SplitMore(s: string, sep: char)
    requires s != ""
    ensures var n := |s| - 1;
            var before := Split(s[..n], sep);
            var last := |before| - 1;
            Split(s, sep) == if s[n] == sep then before + [""] else before[last := before[last] + [s[n]]]
  {
  }

  lemma JoinedEmpty(pieces: seq<string>, sep: char)
    requires pieces != []
    ensures Joined(pieces + [""], sep) == Joined(pieces, sep) + [sep]
  {
    assert (pieces + [""])[..|pieces|] == pieces;
  }

  lemma PieceMembers(pieces: seq<string>, last: string)
    requires pieces != []
    ensures forall p :: p in pieces[|pieces| - 1 := last] ==> p in pieces || p == last
    ensures pieces[|pieces| - 1] in pieces
  {
  }

  lemma LastPiece(a: seq<string>, b: seq<string>, more: string)
    requires b != []
    ensures var n := |b| - 1;
            (a + b)[|a + b| - 1 := b[n] + more] == a + b[n := b[n] + more] && a + b + [""] == a + (b + [""])
  {
  }

  /** A separator between two strings separates their pieces. */
  lemma {:induction false} SplitConcat(a: string, sep: char, b: string)
    ensures Split(a + [sep] + b, sep) == Split(a, sep) + Split(b, sep)
  {
    hide Split;
    var s := a + [sep] + b;
    SplitMore(s, sep);
    if b == "" {
      assert s[..|s| - 1] == a;
      SplitEmpty(sep);
    } else {
      var n := |b| - 1;
      SplitConcat(a, sep, b[..n]);
      SplitMore(b, sep);
      assert s[..|s| - 1] == a + [sep] + b[..n];
      LastPiece(Split(a, sep), Split(b[..n], sep), [b[n]]);
    }
  }

  // ---------- paths ----------

  predicate IsAbsolute(path: string) {
    path != "" && path[0] == '/'
  }

  ghost function NonEmpty(pieces: seq<string>): seq<string> {
    if pieces == [] then [] else
      var n := |pieces| - 1;
      NonEmpty(pieces[..n]) + if pieces[n] == "" then [] else [pieces[n]]
  }

  /** The names a path leads through: its pieces between slashes that are not empty. */
  ghost function Components(path: string): seq<string> {
    NonEmpty(Split(path, '/'))
  }

  lemma {:induction false} NonEmptyConcat(a: seq<string>, b: seq<string>)
    ensures NonEmpty(a + b) == NonEmpty(a) + NonEmpty(b)
  {
    if b == [] {
      assert a + b == a;
    } else {
      var n := |b| - 1;
      NonEmptyConcat(a, b[..n]);
      assert (a + b)[..|a + b| - 1] == a + b[..n];
    }
  }

  lemma ComponentsConcat(a: string, b: string)
    ensures Components(a + "/" + b) == Components(a) + Components(b)
  {
    SplitConcat(a, '/', b);
    NonEmptyConcat(Split(a, '/'), Split(b, '/'));
  }

  lemma NoComponents()
    ensures Components("") == []
  {
    assert [""][..0] == [];
    assert NonEmpty([""]) == NonEmpty([]);
  }

  lemma DotComponents()
    ensures Components(".") == ["."]
  {
    SplitMore(".", '/');
    assert "."[..0] == "" && "" + ['.'] == ".";
    hide Split;
    SplitEmpty('/');
    assert [""][0 := "."] == ["."];
    OneComponent(".");
  }

  lemma OneComponent(s: string)
    requires s != ""
    ensures NonEmpty([s]) == [s]
  {
    var pieces := [s];
    assert pieces[..0] == [];
    assert NonEmpty([]) == [];
  }
}
