/**
 * The parser `affected_table_names` applies to the text CDB_QueryTables
 * returns: split on commas, strip braces from each piece with `gsub!`, keep
 * the non-blank names, drop duplicates.
 *
 * `gsub!` answers nil when it removed nothing, so a piece that held no
 * brace becomes nil and is dropped: of a list `{a,b,c}` only `a` and `c`
 * come through. The model keeps that behaviour.
 */
module QueryTables {
  import opened Wrappers
  import opened RubyStrings
  import opened RubyArrays

  predicate IsBrace(c: char) { c == '{' || c == '}' }

  predicate HasBrace(s: string) { '{' in s || '}' in s }

  /** gsub(/[\{\}]/, ''): the string without its braces. */
  function RemoveBraces(s: string): (r: string)
    ensures !HasBrace(r)
    ensures forall c :: c in r <==> c in s && !IsBrace(c)
    ensures !HasBrace(s) ==> r == s
    ensures HasBrace(s) ==> |r| < |s|
    decreases |s|
  {
    if s == [] then []
    else
      var rest := RemoveBraces(s[1..]);
      assert forall c :: c in s <==> c == s[0] || c in s[1..];
      assert s == [s[0]] + s[1..];
      if IsBrace(s[0]) then rest else [s[0]] + rest
  }

  lemma {:induction false} RemoveBracesAppend(a: string, b: string)
    ensures RemoveBraces(a + b) == RemoveBraces(a) + RemoveBraces(b)
    decreases |a|
  {
    if a == [] {
      assert a + b == b;
    } else {
      var ab := a + b;
      assert ab[0] == a[0] && ab[1..] == a[1..] + b;
      RemoveBracesAppend(a[1..], b);
      var tail := RemoveBraces(a[1..]);
      if !IsBrace(a[0]) {
        assert [a[0]] + (tail + RemoveBraces(b)) == ([a[0]] + tail) + RemoveBraces(b);
      }
    }
  }

  /** gsub!(/[\{\}]/, ''): the string without its braces, or nil when it had none. */
  function RemoveBracesBang(s: string): (r: Option<string>)
    ensures r.None? <==> !HasBrace(s)
    ensures r.Some? ==> !HasBrace(r.value) && |r.value| < |s|
  {
    if HasBrace(s) then Some(RemoveBraces(s)) else None
  }

  /** The block applied to each piece: the stripped name, or nil if blank or if gsub! gave nil. */
  function PieceName(piece: string): (r: Option<string>)
    ensures r.Some? ==> HasBrace(piece) && !IsBlank(r.value) && !HasBrace(r.value)
    ensures r.Some? ==> forall c :: c in r.value ==> c in piece
    ensures HasBrace(piece) && !IsBlank(RemoveBraces(piece)) ==> r == Some(RemoveBraces(piece))
  {
    match RemoveBracesBang(piece)
    case None => None
    case Some(t) => if IsBlank(t) then None else Some(t)
  }

  function PieceNames(ps: seq<string>): (r: seq<Option<string>>)
    ensures |r| == |ps| && forall i :: 0 <= i < |ps| ==> r[i] == PieceName(ps[i])
  {
    seq(|ps|, i requires 0 <= i < |ps| => PieceName(ps[i]))
  }

  /** The names `affected_table_names` extracts from the helper's output `raw`. */
  function ParseQueryTables(raw: string): (r: seq<string>)
    ensures NoDuplicates(r)
    ensures forall n :: n in r <==>
      exists i :: 0 <= i < |Split(raw, ',')| && PieceName(Split(raw, ',')[i]) == Some(n)
    ensures forall n :: n in r ==> !IsBlank(n) && !HasBrace(n) && ',' !in n
  {
    var ps := Split(raw, ',');
    PieceNamesMembers(ps);
    Uniq(Compact(PieceNames(ps)))
  }

  lemma PieceNamesMembers(ps: seq<string>)
    ensures forall n :: Some(n) in PieceNames(ps) <==> exists i :: 0 <= i < |ps| && PieceName(ps[i]) == Some(n)
  {
    var names := PieceNames(ps);
    forall n | Some(n) in names ensures exists i :: 0 <= i < |ps| && PieceName(ps[i]) == Some(n) {
      var i :| 0 <= i < |names| && names[i] == Some(n);
      assert PieceName(ps[i]) == Some(n);
    }
  }

  /** The names come out in the order in which they first appear among the kept pieces. */
  lemma ParseQueryTablesOrder(raw: string)
    ensures var kept := Compact(PieceNames(Split(raw, ',')));
      forall i, j :: 0 <= i < j < |ParseQueryTables(raw)| ==>
        FirstIndex(kept, ParseQueryTables(raw)[i]) < FirstIndex(kept, ParseQueryTables(raw)[j])
  {
    UniqFirstOccurrenceOrder(Compact(PieceNames(Split(raw, ','))));
  }

  /** An empty helper output yields no names. */
  lemma ParseQueryTablesEmpty()
    ensures ParseQueryTables("") == []
  {
  }

  lemma {:induction false} CompactOfNones(ps: seq<string>)
    requires forall i :: 0 <= i < |ps| ==> !HasBrace(ps[i])
    ensures Compact(PieceNames(ps)) == []
    decreases |ps|
  {
    if ps != [] {
      CompactOfNones(ps[1..]);
      assert PieceNames(ps)[1..] == PieceNames(ps[1..]);
      assert PieceNames(ps)[0] == None;
    }
  }

  lemma PieceNameOpening(n: string)
    requires !HasBrace(n) && !IsBlank(n)
    ensures PieceName("{" + n) == Some(n)
  {
  }

  lemma PieceNameClosing(n: string)
    requires !HasBrace(n) && !IsBlank(n)
    ensures PieceName(n + "}") == Some(n)
  {
    RemoveBracesAppend(n, "}");
    assert RemoveBraces("}") == "";
    assert n + "" == n;
  }

  /** Plain names: no comma, no brace, not blank. */
  predicate PlainNames(names: seq<string>) {
    forall i :: 0 <= i < |names| ==> ',' !in names[i] && !HasBrace(names[i]) && !IsBlank(names[i])
  }

  /** The pieces a braced list splits into: the braces stick to the outer names. */
  function BracedPieces(names: seq<string>): (ps: seq<string>)
    requires |names| >= 2
    ensures |ps| == |names|
    ensures ps[0] == "{" + names[0] && ps[|names| - 1] == names[|names| - 1] + "}"
    ensures forall i :: 0 < i < |names| - 1 ==> ps[i] == names[i]
  {
    ExtendLast(ExtendFirst(names, "{"), "}")
  }

  lemma JoinBracedPieces(names: seq<string>)
    requires |names| >= 2
    ensures Join(BracedPieces(names), ',') == "{" + Join(names, ',') + "}"
  {
    JoinExtendFirst(names, "{", ',');
    JoinExtendLast(ExtendFirst(names, "{"), "}", ',');
  }

  lemma SplitBracedList(names: seq<string>)
    requires |names| >= 2
    requires forall i :: 0 <= i < |names| ==> ',' !in names[i]
    ensures Split("{" + Join(names, ',') + "}", ',') == BracedPieces(names)
  {
    var m := |names|;
    var ps := BracedPieces(names);
    JoinBracedPieces(names);
    forall i | 0 <= i < m ensures ',' !in ps[i] {
      if i == 0 {
        assert ps[0] == "{" + names[0];
      } else if i == m - 1 {
        assert ps[i] == names[i] + "}";
      } else {
        assert ps[i] == names[i];
      }
    }
    FieldsOfJoin(ps, ',');
    assert ps[m - 1] != "";
  }

  lemma PieceNamesAppend(a: seq<string>, b: seq<string>)
    ensures PieceNames(a + b) == PieceNames(a) + PieceNames(b)
  {
    var l, r := PieceNames(a + b), PieceNames(a) + PieceNames(b);
    assert |l| == |r|;
    forall i | 0 <= i < |l| ensures l[i] == r[i] {
      if i < |a| { assert (a + b)[i] == a[i]; } else { assert (a + b)[i] == b[i - |a|]; }
    }
  }

  lemma CompactBracedNames(first: string, mid: seq<string>, last: string)
    requires !HasBrace(first) && !IsBlank(first) && !HasBrace(last) && !IsBlank(last)
    requires forall i :: 0 <= i < |mid| ==> !HasBrace(mid[i])
    ensures Compact(PieceNames(["{" + first] + mid + [last + "}"])) == [first, last]
  {
    PieceNameOpening(first);
    PieceNameClosing(last);
    var opening, closing := PieceNames(["{" + first]), PieceNames([last + "}"]);
    assert opening == [Some(first)] && closing == [Some(last)];
    CompactOfNones(mid);
    PieceNamesAppend(["{" + first] + mid, [last + "}"]);
    PieceNamesAppend(["{" + first], mid);
    CompactAppend(opening + PieceNames(mid), closing);
    CompactAppend(opening, PieceNames(mid));
    assert Compact(opening) == [first] && Compact(closing) == [last];
    assert [first] + [] + [last] == [first, last];
  }

  lemma NamesOfBracedPieces(names: seq<string>)
    requires |names| >= 2 && PlainNames(names)
    ensures Compact(PieceNames(BracedPieces(names))) == [names[0], names[|names| - 1]]
  {
    var m := |names|;
    var first, last, mid := names[0], names[m - 1], names[1..m - 1];
    assert BracedPieces(names) == ["{" + first] + mid + [last + "}"];
    assert !HasBrace(first) && !IsBlank(first) && !HasBrace(last) && !IsBlank(last);
    forall i | 0 <= i < |mid| ensures !HasBrace(mid[i]) { assert mid[i] == names[i + 1]; }
    CompactBracedNames(first, mid, last);
  }

  /**
   * For a brace-wrapped, comma-separated list of at least two plain names,
   * only the first and the last name survive (the pieces in between carry no
   * brace, so `gsub!` answers nil for them).
   */
  lemma ParseBracedList(names: seq<string>)
    requires |names| >= 2 && PlainNames(names)
    ensures ParseQueryTables("{" + Join(names, ',') + "}") == Uniq([names[0], names[|names| - 1]])
  {
    assert forall i :: 0 <= i < |names| ==> ',' !in names[i];
    SplitBracedList(names);
    NamesOfBracedPieces(names);
  }

  /** The list the database helper typically returns for three tables loses the middle one. */
  function ThreeNames(): seq<string> { ["public.a", "public.b", "public.c"] }

  lemma ThreeNamesPlain()
    ensures PlainNames(ThreeNames())
  {
    var names := ThreeNames();
    forall i | 0 <= i < |names|
      ensures ',' !in names[i] && !HasBrace(names[i]) && !IsBlank(names[i])
    {
      assert !IsSpace(names[i][0]);
    }
  }

  lemma ThreeNamesText()
    ensures "{" + Join(ThreeNames(), ',') + "}" == "{public.a,public.b,public.c}"
  {
    var names := ThreeNames();
    assert names[1..][1..] == ["public.c"];
    calc {
      Join(names, ',');
      names[0] + [','] + Join(names[1..], ',');
      names[0] + [','] + (names[1] + [','] + Join(names[1..][1..], ','));
    }
  }

  lemma ParseThreeTables(raw: string)
    requires raw == "{public.a,public.b,public.c}"
    ensures ParseQueryTables(raw) == ["public.a", "public.c"]
  {
    var names := ThreeNames();
    ThreeNamesPlain();
    ThreeNamesText();
    ParseBracedList(names);
    var ends := [names[0], names[|names| - 1]];
    assert ends[0][7] != ends[1][7];
    UniqOfNoDuplicates(ends);
  }
}
