/** A parameterised SQL statement as the services build it: statement text
    with `?` placeholders, and the list of values bound to them in order. */
module SqlQuery {
  import opened Text

  datatype SqlValue = SqlNull | SqlInt(i: int) | SqlText(t: string)

  /** Statement text is a sequence of literal pieces and placeholders. */
  datatype Token = Lit(sql: string) | Hole

  datatype Query = Query(tokens: seq<Token>, params: seq<SqlValue>)

  function Holes(ts: seq<Token>): nat {
    if ts == [] then 0 else (if ts[0] == Hole then 1 else 0) + Holes(ts[1..])
  }

  /** Every placeholder has exactly one value. */
  predicate Bound(q: Query) {
    Holes(q.tokens) == |q.params|
  }

  /** The statement text as the driver receives it. */
  function Render(ts: seq<Token>): string {
    if ts == [] then [] else (match ts[0] case Lit(s) => s case Hole => "?") + Render(ts[1..])
  }

  /** A statement that starts as fixed text with no placeholder. */
  function Fixed(text: string): (r: Query)
    ensures Bound(r) && r.params == []
    ensures Render(r.tokens) == text
  {
    assert Render([Lit(text)]) == text + Render([]);
    assert Holes([Lit(text)]) == 0 + Holes([]);
    Query([Lit(text)], [])
  }

  /** `query += text` for text without placeholders. */
  function AddText(q: Query, text: string): (r: Query)
    ensures Bound(q) ==> Bound(r)
    ensures r.params == q.params
    ensures Render(r.tokens) == Render(q.tokens) + text
  {
    var tail := [Lit(text)];
    assert Holes(tail) == 0 + Holes([]);
    assert Render(tail) == text + Render([]);
    HolesAppend(q.tokens, tail);
    RenderAppend(q.tokens, tail);
    Query(q.tokens + tail, q.params)
  }

  /** `query += text; params.push(v)` for a piece of text ending in one
      placeholder. */
  function AddBound(q: Query, text: string, v: SqlValue): (r: Query)
    ensures Bound(q) ==> Bound(r)
    ensures r.params == q.params + [v]
    ensures Render(r.tokens) == Render(q.tokens) + text + "?"
  {
    var tail := [Lit(text), Hole];
    assert Holes(tail) == 1 by { assert tail[1..] == [Hole] && Holes(tail[1..]) == 1 + Holes([]); }
    assert Render(tail) == text + "?" by { assert tail[1..] == [Hole] && Render(tail[1..]) == "?" + Render([]); }
    HolesAppend(q.tokens, tail);
    RenderAppend(q.tokens, tail);
    Query(q.tokens + [Lit(text), Hole], q.params + [v])
  }

  /** The text of literal pieces, each followed by its placeholder. */
  function Joined(pieces: seq<string>): string
    decreases |pieces|
  {
    if pieces == [] then "" else Joined(pieces[..|pieces| - 1]) + pieces[|pieces| - 1] + "?"
  }

  lemma JoinedSnoc(pieces: seq<string>, piece: string)
    ensures Joined(pieces + [piece]) == Joined(pieces) + piece + "?"
  {
    assert (pieces + [piece])[..|pieces|] == pieces;
  }

  /** Appending one more bound piece to a statement that reads as
      `Joined(pieces)`. */
  lemma AddBoundJoined(q: Query, pieces: seq<string>, piece: string, v: SqlValue)
    requires Render(q.tokens) == Joined(pieces)
    ensures Render(AddBound(q, piece, v).tokens) == Joined(pieces + [piece])
  {
    JoinedSnoc(pieces, piece);
  }

  /** `query += piece + '?'; params.push(value)` for each piece in turn. */
  function AddAll(q: Query, pieces: seq<string>, values: seq<SqlValue>): (r: Query)
    requires |pieces| == |values|
    ensures Bound(q) ==> Bound(r)
    ensures r.params == q.params + values
    ensures Render(r.tokens) == Render(q.tokens) + Joined(pieces)
    decreases |pieces|
  {
    if pieces == [] then
      assert q.params + values == q.params;
      q
    else
      var n := |pieces| - 1;
      var init := AddAll(q, pieces[..n], values[..n]);
      assert values == values[..n] + [values[n]];
      assert Render(init.tokens) + pieces[n] + "?" == Render(q.tokens) + (Joined(pieces[..n]) + pieces[n] + "?");
      AddBound(init, pieces[n], values[n])
  }

  lemma {:induction false} HolesAppend(a: seq<Token>, b: seq<Token>)
    ensures Holes(a + b) == Holes(a) + Holes(b)
  {
    if a != [] {
      assert (a + b)[1..] == a[1..] + b;
      HolesAppend(a[1..], b);
    } else {
      assert a + b == b;
    }
  }

  lemma {:induction false} RenderAppend(a: seq<Token>, b: seq<Token>)
    ensures Render(a + b) == Render(a) + Render(b)
  {
    if a != [] {
      assert (a + b)[1..] == a[1..] + b;
      RenderAppend(a[1..], b);
    } else {
      assert a + b == b;
    }
  }
}
