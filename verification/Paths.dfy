/** How the text of a user name or a backup id leads to a directory. */
module Paths {
  import opened Bytes

  type Path = seq<seq<byte>>

  const SLASH: byte := 47
  const DOT: seq<byte> := [46]
  const DOT_DOT: seq<byte> := [46, 46]

  /** One more character in front of a text, given the pieces of the text. */
  function Prepend(c: byte, pieces: seq<seq<byte>>): (r: seq<seq<byte>>)
    requires |pieces| >= 1
    ensures |r| >= 1
  {
    if c == SLASH then [[]] + pieces else [[c] + pieces[0]] + pieces[1..]
  }

  /** The pieces between the slashes. */
  function Split(text: seq<byte>): (pieces: seq<seq<byte>>)
    ensures |pieces| >= 1
  {
    if text == [] then [[]] else Prepend(text[0], Split(text[1..]))
  }

  /** One piece from a directory on: nothing and a dot stay, two dots go up, anything else goes down. */
  function Follow(at: Path, piece: seq<byte>): Path {
    if piece == [] || piece == DOT then at
    else if piece == DOT_DOT then (if at == [] then [] else at[..|at| - 1])
    else at + [piece]
  }

  function Walk(at: Path, pieces: seq<seq<byte>>): Path
    decreases |pieces|
  {
    if pieces == [] then at else Walk(Follow(at, pieces[0]), pieces[1..])
  }

  /** The directory that the text names, starting from a directory. */
  function Resolve(at: Path, text: seq<byte>): Path {
    Walk(at, Split(text))
  }

  lemma {:induction false} PrependJoined(c: byte, p: seq<seq<byte>>, q: seq<seq<byte>>)
    requires |p| >= 1
    ensures Prepend(c, p + q) == Prepend(c, p) + q
  {
    assert (p + q)[0] == p[0] && (p + q)[1..] == p[1..] + q;
  }

  lemma {:induction false} SplitJoined(a: seq<byte>, b: seq<byte>)
    ensures Split(a + [SLASH] + b) == Split(a) + Split(b)
    decreases |a|
  {
    var whole := a + [SLASH] + b;
    if a == [] {
      assert whole[1..] == b;
    } else {
      SplitJoined(a[1..], b);
      assert whole[0] == a[0] && whole[1..] == a[1..] + [SLASH] + b;
      hide Prepend;
      PrependJoined(a[0], Split(a[1..]), Split(b));
    }
  }

  lemma {:induction false} WalkJoined(at: Path, p: seq<seq<byte>>, q: seq<seq<byte>>)
    ensures Walk(at, p + q) == Walk(Walk(at, p), q)
    decreases |p|
  {
    hide Follow;
    if p == [] {
      assert p + q == q;
    } else {
      var whole := p + q;
      assert whole[0] == p[0] && whole[1..] == p[1..] + q;
      WalkJoined(Follow(at, p[0]), p[1..], q);
      assert Walk(at, whole) == Walk(Follow(at, p[0]), whole[1..]);
    }
  }

  /** A path joined by a slash is resolved piece by piece. */
  lemma {:induction false} ResolveJoined(at: Path, a: seq<byte>, b: seq<byte>)
    ensures Resolve(at, a + [SLASH] + b) == Resolve(Resolve(at, a), b)
  {
    SplitJoined(a, b);
    WalkJoined(at, Split(a), Split(b));
  }

  // ----- relative ways -----

  /** From some directory on: so many levels up, then these names down. */
  datatype Way = Way(ups: nat, downs: Path)

  const HERE := Way(0, [])

  function Onward(w: Way, piece: seq<byte>): Way {
    if piece == [] || piece == DOT then w
    else if piece != DOT_DOT then w.(downs := w.downs + [piece])
    else if w.downs == [] then Way(w.ups + 1, [])
    else w.(downs := w.downs[..|w.downs| - 1])
  }

  function WayOf(w: Way, pieces: seq<seq<byte>>): Way
    decreases |pieces|
  {
    if pieces == [] then w else WayOf(Onward(w, pieces[0]), pieces[1..])
  }

  /** At the root going up stays there. */
  function Along(at: Path, w: Way): Path {
    at[..if w.ups <= |at| then |at| - w.ups else 0] + w.downs
  }

  lemma {:induction false} FollowAlong(at: Path, w: Way, piece: seq<byte>)
    ensures Follow(Along(at, w), piece) == Along(at, Onward(w, piece))
  {
    var p, q := Along(at, w), at[..if w.ups <= |at| then |at| - w.ups else 0];
    if piece == DOT_DOT {
      if w.downs == [] {
        assert p == q;
      } else {
        assert p[..|p| - 1] == q + w.downs[..|w.downs| - 1];
      }
    } else {
      assert p + [piece] == q + (w.downs + [piece]);
    }
  }

  lemma {:induction false} WalkAlong(at: Path, w: Way, pieces: seq<seq<byte>>)
    ensures Walk(Along(at, w), pieces) == Along(at, WayOf(w, pieces))
    decreases |pieces|
  {
    hide Along, Follow, Onward;
    if pieces == [] {
    } else {
      FollowAlong(at, w, pieces[0]);
      WalkAlong(at, Onward(w, pieces[0]), pieces[1..]);
    }
  }

  /** A text leads up and down the same way from everywhere. */
  lemma {:induction false} ResolveAlong(at: Path, text: seq<byte>)
    ensures Resolve(at, text) == Along(at, WayOf(HERE, Split(text)))
  {
    assert Along(at, HERE) == at;
    hide Along, Split, WayOf;
    WalkAlong(at, HERE, Split(text));
  }

  // ----- plain names -----

  /** A name that is one path component. */
  predicate Plain(name: seq<byte>) {
    name != [] && SLASH !in name && name != DOT && name != DOT_DOT
  }

  lemma {:induction false} SplitWhole(name: seq<byte>)
    requires SLASH !in name
    ensures Split(name) == [name]
  {
    if name == [] {
    } else {
      SplitWhole(name[1..]);
      assert name == [name[0]] + name[1..];
    }
  }

  lemma {:induction false} ResolvePlain(at: Path, name: seq<byte>)
    requires Plain(name)
    ensures Resolve(at, name) == at + [name]
  {
    SplitWhole(name);
    assert [name][1..] == [];
    assert Walk(at + [name], []) == at + [name];
  }

  /** Plain names denote the same directory only if they are the same name. */
  lemma {:induction false} PlainNeverAlias(at: Path, a: seq<byte>, b: seq<byte>)
    requires Plain(a) && Plain(b)
    ensures Resolve(at, a) == Resolve(at, b) <==> a == b
  {
    ResolvePlain(at, a);
    ResolvePlain(at, b);
    assert (at + [a])[|at|] == a && (at + [b])[|at|] == b;
  }

  /** Other names can: a trailing slash is dropped. */
  lemma {:induction false} TrailingSlash(at: Path, name: seq<byte>)
    ensures Resolve(at, name + [SLASH]) == Resolve(at, name)
  {
    ResolveJoined(at, name, []);
    assert name + [SLASH] + [] == name + [SLASH];
    var empty: seq<seq<byte>>, p := [[]], Resolve(at, name);
    assert Split([]) == empty && empty[1..] == [];
    assert Walk(p, empty) == Walk(Follow(p, []), []);
  }

  /** ... and ".." followed by another plain name leads to that name. */
  lemma {:induction false} UpAndOver(at: Path, name: seq<byte>, other: seq<byte>)
    requires Plain(name) && Plain(other)
    ensures Resolve(Resolve(at, name), DOT_DOT + [SLASH] + other) == Resolve(at, other)
  {
    var p := at + [name];
    ResolvePlain(at, name);
    ResolveJoined(p, DOT_DOT, other);
    SplitWhole(DOT_DOT);
    assert [DOT_DOT][1..] == [];
    assert Walk(p, [DOT_DOT]) == Walk(Follow(p, DOT_DOT), []);
    assert p[..|p| - 1] == at;
  }

  /** A path of names as a file system has them. */
  predicate Names(p: Path) {
    forall k :: 0 <= k < |p| ==> Plain(p[k])
  }

  lemma {:induction false} PrependPieces(c: byte, pieces: seq<seq<byte>>)
    requires |pieces| >= 1 && forall k :: 0 <= k < |pieces| ==> SLASH !in pieces[k]
    ensures forall k :: 0 <= k < |Prepend(c, pieces)| ==> SLASH !in Prepend(c, pieces)[k]
  {
  }

  lemma {:induction false} SplitPieces(text: seq<byte>)
    ensures forall k :: 0 <= k < |Split(text)| ==> SLASH !in Split(text)[k]
  {
    if text == [] {
    } else {
      SplitPieces(text[1..]);
      PrependPieces(text[0], Split(text[1..]));
      hide Prepend;
    }
  }

  lemma {:induction false} WalkNames(at: Path, pieces: seq<seq<byte>>)
    requires Names(at) && forall k :: 0 <= k < |pieces| ==> SLASH !in pieces[k]
    ensures Names(Walk(at, pieces))
    decreases |pieces|
  {
    if pieces == [] {
    } else {
      assert Names(Follow(at, pieces[0]));
      hide Follow, Names;
      WalkNames(Follow(at, pieces[0]), pieces[1..]);
    }
  }

  /** Texts lead from such paths to such paths. */
  lemma {:induction false} ResolveNames(at: Path, text: seq<byte>)
    requires Names(at)
    ensures Names(Resolve(at, text))
  {
    SplitPieces(text);
    hide Names, Split;
    WalkNames(at, Split(text));
  }
}
