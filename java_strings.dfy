/** Java's `String.split` with a one-character delimiter that is not a regular
    expression metacharacter (here always ':'), and the matching join. */
module JavaStrings {

  /** Every piece of `s` between consecutive occurrences of `d`, empty pieces
      included: n occurrences of `d` give n + 1 pieces. */
  function Pieces(s: string, d: char): (r: seq<string>)
    ensures |r| >= 1
    ensures forall i :: 0 <= i < |r| ==> d !in r[i]
    ensures d !in s ==> r == [s]
    decreases |s|
  {
    if s == [] then [""]
    else
      var rest := Pieces(s[1..], d);
      if s[0] == d then [""] + rest
      else
        assert s == [s[0]] + s[1..];
        [[s[0]] + rest[0]] + rest[1..]
  }

  /** The parts written one after another with `d` between neighbours. */
  function Join(parts: seq<string>, d: char): string
    decreases |parts|
  {
    if |parts| == 0 then ""
    else if |parts| == 1 then parts[0]
    else parts[0] + [d] + Join(parts[1..], d)
  }

  /** `r` with all empty strings at its end removed. */
  function DropTrailingEmpty(r: seq<string>): (t: seq<string>)
    ensures |t| <= |r| && t == r[..|t|]
    ensures t != [] ==> t[|t| - 1] != ""
    ensures forall i :: |t| <= i < |r| ==> r[i] == ""
    decreases |r|
  {
    if r != [] && r[|r| - 1] == "" then DropTrailingEmpty(r[..|r| - 1]) else r
  }

  /** `s.split(d)` in Java (limit 0): when `d` does not occur the result is
      `[s]` itself (so the empty string splits into one empty field);
      otherwise all pieces, with the trailing empty ones dropped. */
  function Split(s: string, d: char): (r: seq<string>)
    ensures forall i :: 0 <= i < |r| ==> d !in r[i]
    ensures d !in s ==> r == [s]
    ensures |r| <= |Pieces(s, d)| && r == Pieces(s, d)[..|r|]
    ensures forall i :: |r| <= i < |Pieces(s, d)| ==> Pieces(s, d)[i] == ""
    ensures s != "" && r != [] ==> r[|r| - 1] != ""
  {
    if d !in s then [s] else DropTrailingEmpty(Pieces(s, d))
  }

  /** Splitting `x + y` where `x` holds no delimiter glues `x` to the first
      piece of `y`. */
  lemma {:induction false} PiecesOfPrefix(x: string, y: string, d: char)
    requires d !in x
    ensures Pieces(x + y, d) == [x + Pieces(y, d)[0]] + Pieces(y, d)[1..]
    decreases |x|
  {
    var py := Pieces(y, d);
    if x == [] {
      assert x + y == y;
      assert x + py[0] == py[0];
      assert [py[0]] + py[1..] == py;
    } else {
      var xy := x + y;
      assert xy[0] == x[0] && xy[1..] == x[1..] + y;
      PiecesOfPrefix(x[1..], y, d);
      var rest := Pieces(x[1..] + y, d);
      assert rest[0] == x[1..] + py[0] && rest[1..] == py[1..];
      assert [x[0]] + (x[1..] + py[0]) == x + py[0];
    }
  }

  /** Pieces inverts Join on delimiter-free parts. */
  lemma {:induction false} PiecesOfJoin(parts: seq<string>, d: char)
    requires |parts| >= 1
    requires forall i :: 0 <= i < |parts| ==> d !in parts[i]
    ensures Pieces(Join(parts, d), d) == parts
    decreases |parts|
  {
    if |parts| > 1 {
      var tail := Join(parts[1..], d);
      var y := [d] + tail;
      assert Join(parts, d) == parts[0] + y;
      PiecesOfPrefix(parts[0], y, d);
      assert y[0] == d && y[1..] == tail;
      PiecesOfJoin(parts[1..], d);
      assert Pieces(y, d) == [""] + parts[1..];
      assert parts[0] + "" == parts[0];
      assert [parts[0]] + parts[1..] == parts;
    }
  }

  /** Join inverts Pieces: no character of `s` is lost or added. */
  lemma {:induction false} JoinOfPieces(s: string, d: char)
    ensures Join(Pieces(s, d), d) == s
    decreases |s|
  {
    if s != [] {
      var rest := Pieces(s[1..], d);
      JoinOfPieces(s[1..], d);
      if s[0] == d {
        assert ([""] + rest)[1..] == rest;
        assert Join([""] + rest, d) == "" + [d] + Join(rest, d);
        assert [s[0]] + s[1..] == s;
      } else {
        var r := [[s[0]] + rest[0]] + rest[1..];
        assert r[1..] == rest[1..];
        if |rest| == 1 {
          assert Join(r, d) == [s[0]] + rest[0];
          assert [s[0]] + s[1..] == s;
        } else {
          assert Join(r, d) == [s[0]] + rest[0] + [d] + Join(rest[1..], d);
          assert Join(rest, d) == rest[0] + [d] + Join(rest[1..], d);
          assert [s[0]] + s[1..] == s;
        }
      }
    }
  }

  /** Round trip: splitting a join of delimiter-free parts whose last part is
      non-empty gives the parts back. */
  lemma SplitOfJoin(parts: seq<string>, d: char)
    requires |parts| >= 1
    requires forall i :: 0 <= i < |parts| ==> d !in parts[i]
    requires parts[|parts| - 1] != ""
    ensures Split(Join(parts, d), d) == parts
  {
    PiecesOfJoin(parts, d);
    var s := Join(parts, d);
    if d in s {
      assert DropTrailingEmpty(parts) == parts;
    }
  }
}
