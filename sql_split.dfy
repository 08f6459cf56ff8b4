/**
 * `splitSQLStatements`: cut the text of a SQL file into statements at every
 * `;`, with no notion of quotes or comments, trim each piece and drop the
 * pieces that are left empty.
 *
 * `Statements` is the reference definition (split at every `;`, trim each
 * piece, keep the non-empty ones). `SplitSemicolon` is the split function the
 * scanner is given and `SplitStatements` the scanning loop; the loop is proved
 * to return exactly `Statements` of its input.
 */
module SqlSplit {
  import opened Wrappers
  import opened GoStrings
  import opened SeqFacts

  /** Position of the first `;` in `s`, or -1 when there is none. */
  function IndexOfSemicolon(s: string): (i: int)
    ensures -1 <= i < |s|
    ensures i == -1 <==> ';' !in s
    ensures 0 <= i ==> s[i] == ';'
    ensures forall k :: 0 <= k < i ==> s[k] != ';'
  {
    if s == [] then -1
    else if s[0] == ';' then 0
    else
      var j := IndexOfSemicolon(s[1..]);
      if j < 0 then -1 else j + 1
  }

  /** The first `;` is the one with no `;` before it. */
  lemma FirstSemicolon(s: string, i: nat)
    requires i < |s| && s[i] == ';' && ';' !in s[..i]
    ensures IndexOfSemicolon(s) == i
  {
    assert forall k :: 0 <= k < i ==> s[k] == s[..i][k];
  }

  /**
   * The first `;` of a prefix is the first `;` of any longer input. Since
   * `SplitSemicolon` consumes exactly up to the first `;`, a buffered prefix
   * that holds a `;` gives the same token and advance as the longer input.
   */
  lemma IndexOfSemicolonPrefix(data: string, rest: string)
    requires ';' in data
    ensures IndexOfSemicolon(data + rest) == IndexOfSemicolon(data)
  {
    var i := IndexOfSemicolon(data);
    assert (data + rest)[..i] == data[..i];
    FirstSemicolon(data + rest, i);
  }

  /**
   * The split function given to the scanner. With a `;` in `data` the token is
   * the data before the first `;`, and the `;` is consumed with it. With no
   * `;`, the rest of the input is the last token once the end is reached;
   * before that, more data is requested (advance 0, no token).
   */
  method SplitSemicolon(data: string, atEOF: bool) returns (advance: nat, token: Option<string>)
    ensures token.Some? ==> 0 < advance <= |data|
    ensures token.Some? ==>
              (data[advance - 1] == ';' && token.value == data[..advance - 1] && ';' !in token.value)
              || (atEOF && advance == |data| && token.value == data && ';' !in data)
    ensures token.None? <==> ';' !in data && !(atEOF && |data| > 0)
    ensures token.None? ==> advance == 0
    ensures ';' in data ==> token.Some? && advance == IndexOfSemicolon(data) + 1
  {
    for i := 0 to |data|
      invariant ';' !in data[..i]
    {
      if data[i] == ';' {
        FirstSemicolon(data, i);
        return i + 1, Some(data[..i]);
      }
    }
    assert data[..|data|] == data;
    if atEOF && |data| > 0 {
      return |data|, Some(data);
    }
    return 0, None;
  }

  /**
   * `strings.Split(s, ";")`: the pieces between consecutive `;`, in order,
   * defined character by character.
   */
  function Pieces(s: string): (ps: seq<string>)
    ensures |ps| >= 1
  {
    if s == [] then [""]
    else
      var rest := Pieces(s[1..]);
      if s[0] == ';' then [""] + rest else [[s[0]] + rest[0]] + rest[1..]
  }

  /** The inverse of `Pieces`: the pieces glued back together with `;`. */
  function Join(ps: seq<string>): string
    requires |ps| >= 1
  {
    if |ps| == 1 then ps[0] else ps[0] + ";" + Join(ps[1..])
  }

  /** With its first `;` at `i`, a text splits into the text before it and the pieces after it. */
  lemma {:induction false} PiecesAt(s: string, i: nat)
    requires i < |s| && s[i] == ';' && ';' !in s[..i]
    ensures Pieces(s) == [s[..i]] + Pieces(s[i + 1..])
  {
    if i > 0 {
      assert s[1..][..i - 1] == s[1..i];
      PiecesAt(s[1..], i - 1);
      assert s[1..][i..] == s[i + 1..];
      assert [s[0]] + s[1..i] == s[..i];
    }
  }

  /** A text with no `;` is a single piece. */
  lemma {:induction false} PiecesLast(s: string)
    requires ';' !in s
    ensures Pieces(s) == [s]
  {
    if s != [] {
      PiecesLast(s[1..]);
      assert [s[0]] + s[1..] == s;
    }
  }

  /** No piece holds a `;`. */
  lemma {:induction false} PiecesNoSemicolon(s: string)
    ensures forall k :: 0 <= k < |Pieces(s)| ==> ';' !in Pieces(s)[k]
    decreases |s|
  {
    var i := IndexOfSemicolon(s);
    if i >= 0 {
      PiecesAt(s, i);
      PiecesNoSemicolon(s[i + 1..]);
    } else {
      PiecesLast(s);
    }
  }

  /** Splitting and re-joining gives back the text. */
  lemma {:induction false} JoinPieces(s: string)
    ensures Join(Pieces(s)) == s
    decreases |s|
  {
    var i := IndexOfSemicolon(s);
    if i >= 0 {
      PiecesAt(s, i);
      JoinPieces(s[i + 1..]);
      assert s == s[..i] + ";" + s[i + 1..];
    } else {
      PiecesLast(s);
    }
  }

  /** Joining pieces that hold no `;` and splitting again gives back the pieces. */
  lemma {:induction false} PiecesJoin(ps: seq<string>)
    requires |ps| >= 1
    requires forall k :: 0 <= k < |ps| ==> ';' !in ps[k]
    ensures Pieces(Join(ps)) == ps
  {
    if |ps| == 1 {
      PiecesLast(ps[0]);
    } else {
      var s := Join(ps);
      var rest := Join(ps[1..]);
      assert s == ps[0] + ";" + rest;
      assert s[|ps[0]|] == ';' && s[..|ps[0]|] == ps[0];
      PiecesAt(s, |ps[0]|);
      assert s[|ps[0]| + 1..] == rest;
      PiecesJoin(ps[1..]);
    }
  }

  /** There is one piece more than there are `;` in the text. */
  lemma {:induction false} PiecesCount(s: string)
    ensures |Pieces(s)| == multiset(s)[';'] + 1
    decreases |s|
  {
    var i := IndexOfSemicolon(s);
    if i < 0 {
      PiecesLast(s);
      assert multiset(s)[';'] == 0;
    } else {
      PiecesAt(s, i);
      PiecesCount(s[i + 1..]);
      assert s == s[..i] + [';'] + s[i + 1..];
      assert multiset(s[..i])[';'] == 0;
    }
  }

  /** Splitting `a;b` is splitting `a` and then `b`. */
  lemma {:induction false} PiecesSeparated(a: string, b: string)
    ensures Pieces(a + ";" + b) == Pieces(a) + Pieces(b)
    decreases |a|
  {
    var s := a + ";" + b;
    var i := IndexOfSemicolon(a);
    if i < 0 {
      PiecesLast(a);
      assert s[..|a|] == a;
      PiecesAt(s, |a|);
      assert s[|a| + 1..] == b;
    } else {
      var tail := a[i + 1..];
      PiecesAt(a, i);
      assert s[..i] == a[..i];
      PiecesAt(s, i);
      assert s[i + 1..] == tail + ";" + b;
      PiecesSeparated(tail, b);
      AppendAssoc([a[..i]], Pieces(tail), Pieces(b));
    }
  }

  /** The statement a single piece contributes: its trim, unless that is empty. */
  function Kept(piece: string): (r: seq<string>)
    ensures r == [] <==> forall k :: 0 <= k < |piece| ==> IsSpace(piece[k])
    ensures r != [] ==> r == [TrimSpace(piece)] && IsTrimmed(r[0])
  {
    TrimSpaceEmpty(piece);
    var st := TrimSpace(piece);
    if st == "" then [] else [st]
  }

  /** Each piece trimmed, the empty ones dropped, the others kept in their order. */
  function Clean(ps: seq<string>): (r: seq<string>)
    ensures |r| <= |ps|
  {
    if ps == [] then [] else Kept(ps[0]) + Clean(ps[1..])
  }

  /** The statements kept are exactly the non-empty trims of the pieces. */
  lemma {:induction false} CleanMembers(ps: seq<string>)
    ensures forall st :: st in Clean(ps) <==>
              st != "" && exists k :: 0 <= k < |ps| && st == TrimSpace(ps[k])
  {
    if ps != [] {
      CleanMembers(ps[1..]);
      assert forall k :: 0 <= k < |ps| - 1 ==> ps[1..][k] == ps[k + 1];
      forall st | st != "" && (exists k :: 0 <= k < |ps| && st == TrimSpace(ps[k]))
        ensures st in Clean(ps)
      {
        var k :| 0 <= k < |ps| && st == TrimSpace(ps[k]);
        if k > 0 {
          assert st == TrimSpace(ps[1..][k - 1]);
        }
      }
    }
  }

  /** Cleaning distributes over concatenation, so the order of pieces is kept. */
  lemma {:induction false} CleanAppend(a: seq<string>, b: seq<string>)
    ensures Clean(a + b) == Clean(a) + Clean(b)
  {
    if a == [] {
      assert a + b == b;
    } else {
      assert (a + b)[0] == a[0];
      assert (a + b)[1..] == a[1..] + b;
      CleanAppend(a[1..], b);
    }
  }

  /** The statements of a SQL text: split at every `;`, each piece trimmed, empty ones dropped. */
  function Statements(sql: string): seq<string> {
    Clean(Pieces(sql))
  }

  /** The statements of a text with its first `;` at `i`: the first piece's, then the rest's. */
  lemma StatementsAt(data: string, i: nat)
    requires i < |data| && data[i] == ';' && ';' !in data[..i]
    ensures Statements(data) == Kept(data[..i]) + Statements(data[i + 1..])
  {
    PiecesAt(data, i);
  }

  /** The statements of a text with no `;`: the text's own trim, unless that is empty. */
  lemma StatementsLast(data: string)
    requires ';' !in data
    ensures Statements(data) == Kept(data)
  {
    PiecesLast(data);
  }

  /** Empty text has no statement. */
  lemma StatementsEmpty()
    ensures Statements([]) == []
  {
    StatementsLast([]);
    TrimSpaceOfTrimmed([]);
  }

  /**
   * One round of the scanner: the statements of the unread text are what the
   * next token contributes followed by the statements of the text after it.
   */
  lemma ScanStep(data: string, advance: nat, token: string)
    requires 0 < advance <= |data|
    requires (data[advance - 1] == ';' && token == data[..advance - 1] && ';' !in token)
          || (advance == |data| && token == data && ';' !in data)
    ensures Statements(data) == Kept(token) + Statements(data[advance..])
  {
    if data[advance - 1] == ';' && token == data[..advance - 1] && ';' !in token {
      StatementsAt(data, advance - 1);
    } else {
      assert data[advance..] == [];
      StatementsLast(data);
      StatementsEmpty();
    }
  }

  /**
   * One round of the scanner loop keeps its invariant: the statements kept so
   * far followed by those of the unread input are all the statements.
   */
  lemma AdvanceKeeps(sql: string, pos: nat, unread: string, advance: nat, token: string,
                     statements: seq<string>, next: seq<string>, nextPos: nat)
    requires pos <= |sql| && unread == sql[pos..] && 0 < advance <= |unread|
    requires statements + Statements(unread) == Statements(sql)
    requires (unread[advance - 1] == ';' && token == unread[..advance - 1] && ';' !in token)
          || (advance == |unread| && token == unread && ';' !in unread)
    requires next == statements + Kept(token) && nextPos == pos + advance
    ensures nextPos <= |sql| && next + Statements(sql[nextPos..]) == Statements(sql)
  {
    ScanStep(unread, advance, token);
    DropDrop(sql, pos, advance);
    var after := unread[advance..];
    assert after == sql[nextPos..];
    assert Statements(unread) == Kept(token) + Statements(after);
    Regroup(Statements(sql), statements, Kept(token), Statements(sql[nextPos..]), Statements(unread));
  }

  /** When the scanner has consumed the whole input, the statements kept are all of them. */
  lemma Finished(sql: string, pos: nat, statements: seq<string>)
    requires pos <= |sql| && |sql[pos..]| == 0
    requires statements + Statements(sql[pos..]) == Statements(sql)
    ensures statements == Statements(sql)
  {
    assert sql[pos..] == [];
    StatementsEmpty();
  }

  /**
   * `splitSQLStatements`: the scanner loop. Each round asks the split function
   * for the next token of the unread input and appends the token, trimmed, when
   * it is not empty; the loop ends when no token is left.
   */
  method SplitStatements(sql: string) returns (statements: seq<string>)
    ensures statements == Statements(sql)
  {
    statements := [];
    var pos := 0;
    assert sql[pos..] == sql;
    while true
      invariant 0 <= pos <= |sql|
      invariant statements + Statements(sql[pos..]) == Statements(sql)
      decreases |sql| - pos
    {
      var advance, token := SplitSemicolon(sql[pos..], true);
      if token.None? {
        break;
      }
      ghost var before, at := statements, pos;
      // the token, trimmed, is appended unless it is empty
      statements := statements + Kept(token.value);
      pos := pos + advance;
      AdvanceKeeps(sql, at, sql[at..], advance, token.value, before, statements, pos);
    }
    Finished(sql, pos, statements);
  }

  /** Every statement is non-empty, carries no white space at its ends and holds no `;`. */
  lemma {:induction false} StatementsWellFormed(sql: string)
    ensures forall st :: st in Statements(sql) ==> st != "" && IsTrimmed(st) && ';' !in st
    decreases |sql|
  {
    var i := IndexOfSemicolon(sql);
    if i >= 0 {
      StatementsAt(sql, i);
      TrimSpaceKeepsOut(sql[..i], ';');
      StatementsWellFormed(sql[i + 1..]);
    } else {
      StatementsLast(sql);
      TrimSpaceKeepsOut(sql, ';');
    }
  }

  /** Every statement is its own trim. */
  lemma StatementsTrimmed(sql: string)
    ensures forall st :: st in Statements(sql) ==> TrimSpace(st) == st
  {
    StatementsWellFormed(sql);
    forall st | st in Statements(sql) ensures TrimSpace(st) == st {
      TrimSpaceOfTrimmed(st);
    }
  }

  /** There are at most one more statements than there are `;` in the text. */
  lemma StatementsCount(sql: string)
    ensures |Statements(sql)| <= multiset(sql)[';'] + 1
  {
    PiecesCount(sql);
  }

  /** The statements of `a;b` are those of `a` followed by those of `b`: order is kept. */
  lemma StatementsSeparated(a: string, b: string)
    ensures Statements(a + ";" + b) == Statements(a) + Statements(b)
  {
    PiecesSeparated(a, b);
    CleanAppend(Pieces(a), Pieces(b));
  }

  /** A text with no `;` is a single statement, its trim, unless that is empty. */
  lemma StatementsNoSemicolon(sql: string)
    requires ';' !in sql
    ensures Statements(sql) == if TrimSpace(sql) == "" then [] else [TrimSpace(sql)]
  {
    StatementsLast(sql);
  }

  /** Text that is nothing but white space and `;` yields no statement. */
  lemma {:induction false} StatementsOfSeparators(sql: string)
    requires forall k :: 0 <= k < |sql| ==> sql[k] == ';' || IsSpace(sql[k])
    ensures Statements(sql) == []
    decreases |sql|
  {
    var i := IndexOfSemicolon(sql);
    if i >= 0 {
      StatementsAt(sql, i);
      TrimSpaceEmpty(sql[..i]);
      StatementsOfSeparators(sql[i + 1..]);
    } else {
      StatementsLast(sql);
      TrimSpaceEmpty(sql);
    }
  }
}
