/**
 * What the map parser promises: the empty stream, the messages at a wrong
 * delimiter, the edict's last-wins pairs, the brush closer, the texture
 * rule and the two alignment dialects.
 */
module ParserProperties {
  import opened Common
  import opened Errors
  import opened Lexer
  import opened Repr
  import opened Parser

  /** The number a token at `i` denotes, if any. */
  function NumberAt(c: FloatText, items: seq<Item>, i: nat): Option<F64>
    requires i < |items| && items[i].Ok?
  {
    ReadNumber(c, TextAsString(items[i].value))
  }

  // ---------------------------------------------------------------------
  // The entity loop

  /** Every entity the loop adds stays in the map, after the ones before it. */
  lemma {:induction false} EntitiesKeepPrefix(c: FloatText, items: seq<Item>, pos: nat, acc: seq<Entity>)
    requires Stream(items, pos)
    ensures EntitiesFrom(c, items, pos, acc).Ok? ==>
              var es := EntitiesFrom(c, items, pos, acc).value.entities;
              |es| >= |acc| && es[..|acc|] == acc && (pos < |items| ==> |es| > |acc|)
    decreases |items| - pos
  {
    if pos < |items| {
      var e := EntityAt(c, items, pos);
      if e.Ok? {
        EntitiesKeepPrefix(c, items, e.value.next, acc + [e.value.value]);
        var es := EntitiesFrom(c, items, pos, acc);
        if es.Ok? {
          assert es == EntitiesFrom(c, items, e.value.next, acc + [e.value.value]);
          var v := es.value.entities;
          assert v[..|acc| + 1] == acc + [e.value.value];
          assert v[..|acc|] == (v[..|acc| + 1])[..|acc|];
        }
      }
    }
  }

  /** No token gives a map without entities; a successful parse of any token yields an entity. */
  lemma EmptyStreamHasNoEntities(c: FloatText, items: seq<Item>)
    requires AllLexemes(items)
    ensures items == [] ==> ParseTokens(c, items) == Ok(QuakeMap([]))
    ensures items != [] && ParseTokens(c, items).Ok? ==> |ParseTokens(c, items).value.entities| > 0
  {
    EntitiesKeepPrefix(c, items, 0, []);
  }

  /** An empty text is an empty map. */
  lemma EmptyTextIsEmptyMap(c: FloatText)
    ensures ParseText(c, []) == Ok(QuakeMap([]))
  {
    assert Lex([]) == [];
    EmptyStreamHasNoEntities(c, []);
  }

  // ---------------------------------------------------------------------
  // Delimiters

  /** The message of a failed expectation, with the expected text spelled out. */
  lemma ExpectedMessageIs(what: string, t: Token, spelled: string)
    requires "Expected " + what + ", got `" == spelled
    ensures ExpectedMessage(what, t) == spelled + TextAsString(t) + "`"
  {
  }

  /** An entity must open with `{`: any other token is reported with its text and line. */
  lemma EntityMustOpen(c: FloatText, items: seq<Item>, pos: nat, t: Token)
    requires Stream(items, pos) && pos < |items| && items[pos] == Ok(t) && !MatchByte(t, LBRACE)
    ensures EntityAt(c, items, pos) == Err(Parser(Line("Expected `{`, got `" + TextAsString(t) + "`", Some(t.lineNumber))))
  {
    ExpectedMessageIs(Ticked(LBRACE), t, "Expected `{`, got `");
  }

  /** An entity that opens with `{`, after its edict and brushes, is what its closing token makes it. */
  lemma EntityParts(c: FloatText, items: seq<Item>, pos: nat, edict: Edict, q: nat, brushes: seq<Brush>, r: nat)
    requires Stream(items, pos) && pos < |items| && items[pos].Ok? && MatchByte(items[pos].value, LBRACE)
    requires EdictFrom(items, pos + 1, map[]) == Ok(Parsed(edict, q))
    requires BrushesFrom(c, items, q, []) == Ok(Parsed(brushes, r))
    ensures r <= |items|
    ensures EntityAt(c, items, pos)
            == (var close := ByteAt(items, r, RBRACE);
                if close.Err? then Err(close.error) else Ok(Parsed(Entity(edict, brushes), close.value)))
  {
    assert ByteAt(items, pos, LBRACE) == Ok(pos + 1);
  }

  /** Extracting a token other than `b` is reported with the token's text and line. */
  lemma ByteMismatch(items: seq<Item>, pos: nat, b: byte, t: Token, spelled: string)
    requires pos < |items| && items[pos] == Ok(t) && !MatchByte(t, b)
    requires "Expected " + Ticked(b) + ", got `" == spelled
    ensures ByteAt(items, pos, b) == Err(Parser(Line(spelled + TextAsString(t) + "`", Some(t.lineNumber))))
  {
    ExpectedMessageIs(Ticked(b), t, spelled);
  }

  /** After the edict and the brushes an entity must close with `}`. */
  lemma EntityMustClose(c: FloatText, items: seq<Item>, pos: nat, edict: Edict, q: nat, brushes: seq<Brush>, r: nat, t: Token)
    requires Stream(items, pos) && pos < |items| && items[pos].Ok? && MatchByte(items[pos].value, LBRACE)
    requires EdictFrom(items, pos + 1, map[]) == Ok(Parsed(edict, q))
    requires BrushesFrom(c, items, q, []) == Ok(Parsed(brushes, r))
    requires r < |items| && items[r] == Ok(t) && !MatchByte(t, RBRACE)
    ensures EntityAt(c, items, pos) == Err(Parser(Line("Expected `}`, got `" + TextAsString(t) + "`", Some(t.lineNumber))))
  {
    EntityParts(c, items, pos, edict, q, brushes, r);
    ByteMismatch(items, r, RBRACE, t, "Expected `}`, got `");
  }

  /** The closing token of a brush other than `}`. */
  lemma CloseBrushMismatch(items: seq<Item>, surfaces: Brush, q: nat, t: Token)
    requires q < |items| && items[q] == Ok(t) && !MatchByte(t, RBRACE)
    ensures CloseBrush(items, Ok(Parsed(surfaces, q)))
            == Err(Parser(Line("Expected `(` or `}`, got `" + TextAsString(t) + "`", Some(t.lineNumber))))
  {
    ExpectedMessageIs(Alternatives([LPAREN]) + " or " + Ticked(RBRACE), t, "Expected `(` or `}`, got `");
  }

  /** Inside a brush the closer may only be `}`; the message lists `(` as the other choice. */
  lemma BrushMustClose(c: FloatText, items: seq<Item>, pos: nat, surfaces: Brush, q: nat, t: Token)
    requires Stream(items, pos) && pos < |items| && items[pos].Ok? && MatchByte(items[pos].value, LBRACE)
    requires SurfacesFrom(c, items, pos + 1, []) == Ok(Parsed(surfaces, q))
    requires q < |items| && items[q] == Ok(t) && !MatchByte(t, RBRACE)
    ensures BrushAt(c, items, pos) == Err(Parser(Line("Expected `(` or `}`, got `" + TextAsString(t) + "`", Some(t.lineNumber))))
  {
    BrushOpens(c, items, pos);
    CloseBrushMismatch(items, surfaces, q, t);
  }

  /** `{` followed by `}` is a brush without surfaces: no minimum count is enforced. */
  lemma EmptyBrushParses(c: FloatText, items: seq<Item>, pos: nat)
    requires Stream(items, pos) && pos + 1 < |items|
    requires items[pos].Ok? && MatchByte(items[pos].value, LBRACE)
    requires items[pos + 1].Ok? && MatchByte(items[pos + 1].value, RBRACE)
    ensures BrushAt(c, items, pos) == Ok(Parsed([], pos + 2))
  {
    BrushOpens(c, items, pos);
    SurfacesStop(c, items, pos + 1, []);
  }

  // ---------------------------------------------------------------------
  // The edict

  /** Insert the pairs in order: a later pair replaces an earlier one with the same key. */
  function InsertPairs(acc: Edict, pairs: seq<(CString, CString)>): Edict
    decreases |pairs|
  {
    if pairs == [] then acc else InsertPairs(acc[pairs[0].0 := pairs[0].1], pairs[1..])
  }

  /** A key is in the edict iff it was there before or some pair has it. */
  lemma {:induction false} InsertPairsKeys(acc: Edict, pairs: seq<(CString, CString)>, k: CString)
    ensures k in InsertPairs(acc, pairs) <==> k in acc || exists i :: 0 <= i < |pairs| && pairs[i].0 == k
    decreases |pairs|
  {
    if pairs != [] {
      InsertPairsKeys(acc[pairs[0].0 := pairs[0].1], pairs[1..], k);
      if exists i :: 0 <= i < |pairs| && pairs[i].0 == k {
        var i :| 0 <= i < |pairs| && pairs[i].0 == k;
        if i > 0 {
          assert pairs[1..][i - 1].0 == k;
        }
      }
      if exists i :: 0 <= i < |pairs[1..]| && pairs[1..][i].0 == k {
        var i :| 0 <= i < |pairs[1..]| && pairs[1..][i].0 == k;
        assert pairs[i + 1].0 == k;
      }
    }
  }

  /** Pairs without the key leave its entry as it was. */
  lemma {:induction false} InsertPairsUntouched(acc: Edict, pairs: seq<(CString, CString)>, k: CString)
    requires forall i :: 0 <= i < |pairs| ==> pairs[i].0 != k
    ensures k in InsertPairs(acc, pairs) <==> k in acc
    ensures k in acc ==> InsertPairs(acc, pairs)[k] == acc[k]
    decreases |pairs|
  {
    if pairs != [] {
      assert forall i :: 0 <= i < |pairs[1..]| ==> pairs[1..][i] == pairs[i + 1];
      InsertPairsUntouched(acc[pairs[0].0 := pairs[0].1], pairs[1..], k);
    }
  }

  /** The last pair with a key decides its value. */
  lemma {:induction false} InsertPairsLastWins(acc: Edict, pairs: seq<(CString, CString)>, i: nat)
    requires i < |pairs| && forall j :: i < j < |pairs| ==> pairs[j].0 != pairs[i].0
    ensures pairs[i].0 in InsertPairs(acc, pairs) && InsertPairs(acc, pairs)[pairs[i].0] == pairs[i].1
    decreases i
  {
    var next := acc[pairs[0].0 := pairs[0].1];
    assert forall j :: 0 <= j < |pairs[1..]| ==> pairs[1..][j] == pairs[j + 1];
    if i == 0 {
      InsertPairsUntouched(next, pairs[1..], pairs[0].0);
    } else {
      InsertPairsLastWins(next, pairs[1..], i - 1);
    }
  }

  /** The item at `i` is a quoted token. */
  predicate QuotedAt(items: seq<Item>, i: nat) {
    i < |items| && items[i].Ok? && MatchQuoted(items[i].value)
  }

  /** `n` quoted key-value pairs start at `pos`. */
  predicate QuotedPairs(items: seq<Item>, pos: nat, n: nat) {
    && pos + 2 * n <= |items|
    && forall j :: pos <= j < pos + 2 * n ==> QuotedAt(items, j)
  }

  /** The inside of a quoted token. */
  function QuotedText(items: seq<Item>, i: nat): CString
    requires AllLexemes(items) && QuotedAt(items, i)
  {
    assert Lexeme(items[i].value);
    StripQuoted(items[i].value.text)
  }

  /** The `n` pairs at `pos`, each with its quotes stripped. */
  function PairsAt(items: seq<Item>, pos: nat, n: nat): (r: seq<(CString, CString)>)
    requires AllLexemes(items) && QuotedPairs(items, pos, n)
    ensures |r| == n
    decreases n
  {
    if n == 0 then []
    else
      assert QuotedAt(items, pos) && QuotedAt(items, pos + 1) && QuotedPairs(items, pos + 2, n - 1);
      [(QuotedText(items, pos), QuotedText(items, pos + 1))] + PairsAt(items, pos + 2, n - 1)
  }

  /** Pair `j` is made of the tokens `pos + 2j` and `pos + 2j + 1`. */
  lemma {:induction false} PairsAtIndex(items: seq<Item>, pos: nat, n: nat)
    requires AllLexemes(items) && QuotedPairs(items, pos, n)
    ensures forall j :: 0 <= j < n ==> PairsAt(items, pos, n)[j] == (QuotedText(items, pos + 2 * j), QuotedText(items, pos + 2 * j + 1))
    decreases n
  {
    if n > 0 {
      assert QuotedPairs(items, pos + 2, n - 1);
      PairsAtIndex(items, pos + 2, n - 1);
      var rest := PairsAt(items, pos + 2, n - 1);
      var all := PairsAt(items, pos, n);
      assert all == [(QuotedText(items, pos), QuotedText(items, pos + 1))] + rest;
      forall j | 1 <= j < n
        ensures all[j] == (QuotedText(items, pos + 2 * j), QuotedText(items, pos + 2 * j + 1))
      {
        assert all[j] == rest[j - 1];
        assert pos + 2 + 2 * (j - 1) == pos + 2 * j;
      }
    }
  }

  /** One key-value pair of the edict loop. */
  lemma EdictStep(items: seq<Item>, pos: nat, acc: Edict)
    requires Stream(items, pos) && QuotedAt(items, pos) && QuotedAt(items, pos + 1)
    ensures EdictFrom(items, pos, acc) == EdictFrom(items, pos + 2, acc[QuotedText(items, pos) := QuotedText(items, pos + 1)])
  {
  }

  lemma InsertPairsCons(acc: Edict, p: (CString, CString), rest: seq<(CString, CString)>)
    ensures InsertPairs(acc, [p] + rest) == InsertPairs(acc[p.0 := p.1], rest)
  {
    assert ([p] + rest)[1..] == rest;
  }

  /** Inserting the pairs at `pos` is inserting the first one, then the others. */
  lemma InsertPairsAt(items: seq<Item>, pos: nat, n: nat, acc: Edict)
    requires AllLexemes(items) && QuotedPairs(items, pos, n) && n > 0
    ensures QuotedAt(items, pos) && QuotedAt(items, pos + 1) && QuotedPairs(items, pos + 2, n - 1)
    ensures InsertPairs(acc, PairsAt(items, pos, n))
            == InsertPairs(acc[QuotedText(items, pos) := QuotedText(items, pos + 1)], PairsAt(items, pos + 2, n - 1))
    ensures pos + 2 + 2 * (n - 1) == pos + 2 * n
  {
    assert QuotedAt(items, pos) && QuotedAt(items, pos + 1) && QuotedPairs(items, pos + 2, n - 1);
    var k, v := QuotedText(items, pos), QuotedText(items, pos + 1);
    InsertPairsCons(acc, (k, v), PairsAt(items, pos + 2, n - 1));
  }

  /** The edict after inserting the `n` pairs at `pos` one by one, as the loop does. */
  function EdictAfter(items: seq<Item>, pos: nat, n: nat, acc: Edict): Edict
    requires AllLexemes(items) && QuotedPairs(items, pos, n)
    decreases n
  {
    if n == 0 then acc
    else
      assert QuotedAt(items, pos) && QuotedAt(items, pos + 1) && QuotedPairs(items, pos + 2, n - 1);
      EdictAfter(items, pos + 2, n - 1, acc[QuotedText(items, pos) := QuotedText(items, pos + 1)])
  }

  /** Inserting pair by pair is inserting the stripped pairs in order. */
  lemma {:induction false} EdictAfterInsertsPairs(items: seq<Item>, pos: nat, n: nat, acc: Edict)
    requires AllLexemes(items) && QuotedPairs(items, pos, n)
    ensures EdictAfter(items, pos, n, acc) == InsertPairs(acc, PairsAt(items, pos, n))
    decreases n
  {
    if n == 0 {
      assert PairsAt(items, pos, 0) == [];
    } else {
      InsertPairsAt(items, pos, n, acc);
      EdictAfterInsertsPairs(items, pos + 2, n - 1, acc[QuotedText(items, pos) := QuotedText(items, pos + 1)]);
    }
  }

  /** The first pair of `n > 0`, then the other `n - 1`. */
  lemma EdictAfterStep(items: seq<Item>, pos: nat, n: nat, acc: Edict)
    requires AllLexemes(items) && QuotedPairs(items, pos, n) && n > 0
    ensures QuotedAt(items, pos) && QuotedAt(items, pos + 1) && QuotedPairs(items, pos + 2, n - 1)
    ensures EdictAfter(items, pos, n, acc)
            == EdictAfter(items, pos + 2, n - 1, acc[QuotedText(items, pos) := QuotedText(items, pos + 1)])
    ensures pos + 2 + 2 * (n - 1) == pos + 2 * n
  {
    assert QuotedAt(items, pos) && QuotedAt(items, pos + 1) && QuotedPairs(items, pos + 2, n - 1);
  }

  /** The edict loop inserts the pairs it passes over, in order. */
  lemma {:induction false} EdictTakesPairs(items: seq<Item>, pos: nat, n: nat, acc: Edict)
    requires Stream(items, pos) && QuotedPairs(items, pos, n)
    ensures EdictFrom(items, pos, acc) == EdictFrom(items, pos + 2 * n, EdictAfter(items, pos, n, acc))
    decreases n
  {
    if n > 0 {
      EdictAfterStep(items, pos, n, acc);
      EdictStep(items, pos, acc);
      EdictTakesPairs(items, pos + 2, n - 1, acc[QuotedText(items, pos) := QuotedText(items, pos + 1)]);
    }
  }

  /** The edict loop stops at a token that is not quoted, or at the end. */
  lemma EdictStop(items: seq<Item>, pos: nat, acc: Edict)
    requires Stream(items, pos)
    requires pos == |items| || (items[pos].Ok? && !MatchQuoted(items[pos].value))
    ensures EdictFrom(items, pos, acc) == Ok(Parsed(acc, pos))
  {
  }

  /** An edict of `n` quoted pairs ends at the first token after them that is not quoted, or at the end. */
  lemma EdictEndsAfterPairs(items: seq<Item>, pos: nat, n: nat, acc: Edict)
    requires Stream(items, pos) && QuotedPairs(items, pos, n)
    requires pos + 2 * n == |items| || (items[pos + 2 * n].Ok? && !MatchQuoted(items[pos + 2 * n].value))
    ensures EdictFrom(items, pos, acc) == Ok(Parsed(EdictAfter(items, pos, n, acc), pos + 2 * n))
  {
    EdictTakesPairs(items, pos, n, acc);
    EdictStop(items, pos + 2 * n, EdictAfter(items, pos, n, acc));
  }

  /** The keys of the edict are the keys of its pairs. */
  lemma EdictAfterKeys(items: seq<Item>, pos: nat, n: nat, k: CString)
    requires AllLexemes(items) && QuotedPairs(items, pos, n)
    ensures k in EdictAfter(items, pos, n, map[]) <==> exists j :: 0 <= j < n && QuotedText(items, pos + 2 * j) == k
  {
    var pairs := PairsAt(items, pos, n);
    var e := EdictAfter(items, pos, n, map[]);
    EdictAfterInsertsPairs(items, pos, n, map[]);
    assert e == InsertPairs(map[], pairs);
    PairsAtIndex(items, pos, n);
    InsertPairsKeys(map[], pairs, k);
    if k in e {
      var i :| 0 <= i < |pairs| && pairs[i].0 == k;
      assert QuotedText(items, pos + 2 * i) == k;
    }
    if exists j :: 0 <= j < n && QuotedText(items, pos + 2 * j) == k {
      var j :| 0 <= j < n && QuotedText(items, pos + 2 * j) == k;
      assert pairs[j].0 == k;
    }
  }

  /** The value of a key is the value of its last pair. */
  lemma EdictAfterLastValue(items: seq<Item>, pos: nat, n: nat, k: CString, j: nat)
    requires AllLexemes(items) && QuotedPairs(items, pos, n)
    requires j < n && QuotedText(items, pos + 2 * j) == k
    requires forall l :: j < l < n ==> QuotedText(items, pos + 2 * l) != k
    ensures var e := EdictAfter(items, pos, n, map[]);
      k in e && e[k] == QuotedText(items, pos + 2 * j + 1)
  {
    var pairs := PairsAt(items, pos, n);
    EdictAfterInsertsPairs(items, pos, n, map[]);
    PairsAtIndex(items, pos, n);
    assert pairs[j] == (k, QuotedText(items, pos + 2 * j + 1));
    forall l | j < l < |pairs| ensures pairs[l].0 != pairs[j].0 {
      assert pairs[l].0 == QuotedText(items, pos + 2 * l);
    }
    InsertPairsLastWins(map[], pairs, j);
  }

  /** The keys of the pairs are the keys of the edict, and each keeps the value of its last pair. */
  lemma EdictAfterLastWins(items: seq<Item>, pos: nat, n: nat, k: CString)
    requires AllLexemes(items) && QuotedPairs(items, pos, n)
    ensures var e := EdictAfter(items, pos, n, map[]);
            && (k in e <==> exists j :: 0 <= j < n && QuotedText(items, pos + 2 * j) == k)
            && forall j :: (0 <= j < n && QuotedText(items, pos + 2 * j) == k
                            && (forall l :: j < l < n ==> QuotedText(items, pos + 2 * l) != k)) ==>
                  k in e && e[k] == QuotedText(items, pos + 2 * j + 1)
  {
    EdictAfterKeys(items, pos, n, k);
    forall j | 0 <= j < n && QuotedText(items, pos + 2 * j) == k
                 && (forall l :: j < l < n ==> QuotedText(items, pos + 2 * l) != k)
      ensures var e := EdictAfter(items, pos, n, map[]); k in e && e[k] == QuotedText(items, pos + 2 * j + 1)
    {
      EdictAfterLastValue(items, pos, n, k, j);
    }
  }

  /**
   * An edict of `n` quoted pairs, ended by a token that is not quoted or by
   * the end: each key and value is stored without its quotes, and a key
   * given twice keeps the value of its last pair.
   */
  lemma EdictIsLastValueOfEachKey(items: seq<Item>, pos: nat, n: nat, k: CString)
    requires Stream(items, pos) && QuotedPairs(items, pos, n)
    requires pos + 2 * n == |items| || (items[pos + 2 * n].Ok? && !MatchQuoted(items[pos + 2 * n].value))
    ensures EdictFrom(items, pos, map[]).Ok?
    ensures EdictFrom(items, pos, map[]).value.next == pos + 2 * n
    ensures var e := EdictFrom(items, pos, map[]).value.value;
            && (k in e <==> exists j :: 0 <= j < n && QuotedText(items, pos + 2 * j) == k)
            && forall j :: (0 <= j < n && QuotedText(items, pos + 2 * j) == k
                            && (forall l :: j < l < n ==> QuotedText(items, pos + 2 * l) != k)) ==>
                  k in e && e[k] == QuotedText(items, pos + 2 * j + 1)
  {
    EdictEndsAfterPairs(items, pos, n, map[]);
    EdictAfterLastWins(items, pos, n, k);
  }

  /** A quoted key must be followed by a quoted value. */
  lemma EdictValueMustBeQuoted(items: seq<Item>, pos: nat, acc: Edict, t: Token)
    requires Stream(items, pos) && pos + 1 < |items| && items[pos].Ok? && MatchQuoted(items[pos].value)
    requires items[pos + 1] == Ok(t) && !MatchQuoted(t)
    ensures EdictFrom(items, pos, acc) == Err(Parser(Line("Expected quoted, got `" + TextAsString(t) + "`", Some(t.lineNumber))))
  {
    ExpectedMessageIs("quoted", t, "Expected quoted, got `");
  }

  // ---------------------------------------------------------------------
  // Surfaces

  /** Each of `n` numbers read in a row is what its own token denotes. */
  lemma {:induction false} FloatsAreTokenNumbers(c: FloatText, items: seq<Item>, pos: nat, n: nat)
    requires pos <= |items|
    ensures FloatsAt(c, items, pos, n).Ok? ==>
              forall j :: pos <= j < pos + n ==>
                j < |items| && items[j].Ok? && NumberAt(c, items, j) == Some(FloatsAt(c, items, pos, n).value.value[j - pos])
    decreases n
  {
    if n > 0 && pos < |items| {
      FloatsAreTokenNumbers(c, items, pos + 1, n - 1);
      var r := FloatsAt(c, items, pos, n);
      if r.Ok? {
        var rest := FloatsAt(c, items, pos + 1, n - 1);
        assert r.value.value == [r.value.value[0]] + rest.value.value;
        forall j | pos <= j < pos + n
          ensures j < |items| && items[j].Ok? && NumberAt(c, items, j) == Some(r.value.value[j - pos])
        {
          if j > pos {
            assert r.value.value[j - pos] == rest.value.value[j - (pos + 1)];
          }
        }
      }
    }
  }

  /** The legacy dialect: two offsets, the rotation and two scales, in that order; no axes. */
  lemma LegacyAlignmentNumbers(c: FloatText, items: seq<Item>, pos: nat)
    requires pos <= |items| && LegacyAlignmentAt(c, items, pos).Ok?
    ensures var a := LegacyAlignmentAt(c, items, pos).value.value;
            && pos + 5 <= |items| && (forall j :: pos <= j < pos + 5 ==> items[j].Ok?)
            && a.axes.None?
            && Some(a.offset[0]) == NumberAt(c, items, pos) && Some(a.offset[1]) == NumberAt(c, items, pos + 1)
            && Some(a.rotation) == NumberAt(c, items, pos + 2)
            && Some(a.scale[0]) == NumberAt(c, items, pos + 3) && Some(a.scale[1]) == NumberAt(c, items, pos + 4)
  {
    FloatsAreTokenNumbers(c, items, pos, 5);
  }

  /** One bracket of the Valve dialect: three axis components and an offset. */
  lemma BracketNumbers(c: FloatText, items: seq<Item>, pos: nat)
    requires pos <= |items| && BracketAt(c, items, pos).Ok?
    ensures var b := BracketAt(c, items, pos).value.value;
            && pos + 6 <= |items|
            && forall j :: pos + 1 <= j < pos + 5 ==> items[j].Ok? && NumberAt(c, items, j) == Some(b[j - pos - 1])
  {
    FloatsAreTokenNumbers(c, items, pos + 1, 4);
  }

  /** The Valve dialect: the axes are the first three numbers in each bracket, the offsets the fourth. */
  lemma ValveAlignmentNumbers(c: FloatText, items: seq<Item>, pos: nat)
    requires pos <= |items| && ValveAlignmentAt(c, items, pos).Ok?
    ensures var a := ValveAlignmentAt(c, items, pos).value.value;
            && pos + 15 <= |items|
            && (forall j :: pos + 1 <= j < pos + 5 ==> items[j].Ok?)
            && (forall j :: pos + 7 <= j < pos + 11 ==> items[j].Ok?)
            && (forall j :: pos + 12 <= j < pos + 15 ==> items[j].Ok?)
            && a.axes.Some?
            && (forall j :: pos + 1 <= j < pos + 4 ==> NumberAt(c, items, j) == Some(a.axes.value.u[j - pos - 1]))
            && (forall j :: pos + 7 <= j < pos + 10 ==> NumberAt(c, items, j) == Some(a.axes.value.v[j - pos - 7]))
            && Some(a.offset[0]) == NumberAt(c, items, pos + 4) && Some(a.offset[1]) == NumberAt(c, items, pos + 10)
            && Some(a.rotation) == NumberAt(c, items, pos + 12)
            && Some(a.scale[0]) == NumberAt(c, items, pos + 13) && Some(a.scale[1]) == NumberAt(c, items, pos + 14)
  {
    var u, v, t := ValveParts(c, items, pos);
    BracketNumbers(c, items, pos);
    BracketNumbers(c, items, pos + 6);
    FloatsAreTokenNumbers(c, items, pos + 12, 3);
    forall j | pos + 7 <= j < pos + 10
      ensures NumberAt(c, items, j) == Some(v[j - pos - 7])
    {
      assert j - (pos + 6) - 1 == j - pos - 7;
    }
  }

  /** The Valve alignment assembled from the two brackets and the three numbers after them. */
  lemma ValveParts(c: FloatText, items: seq<Item>, pos: nat) returns (u: seq<F64>, v: seq<F64>, t: seq<F64>)
    requires pos <= |items| && ValveAlignmentAt(c, items, pos).Ok?
    ensures pos + 15 <= |items|
    ensures BracketAt(c, items, pos).Ok? && BracketAt(c, items, pos).value.value == u && |u| == 4
    ensures BracketAt(c, items, pos + 6).Ok? && BracketAt(c, items, pos + 6).value.value == v && |v| == 4
    ensures FloatsAt(c, items, pos + 12, 3).Ok? && FloatsAt(c, items, pos + 12, 3).value.value == t && |t| == 3
    ensures ValveAlignmentAt(c, items, pos).value.value == Alignment([u[3], v[3]], t[0], [t[1], t[2]], Some(Axes(u[..3], v[..3])))
  {
    u, v, t := BracketAt(c, items, pos).value.value, BracketAt(c, items, pos + 6).value.value,
               FloatsAt(c, items, pos + 12, 3).value.value;
  }

  /** A texture token that starts with `"` loses its first and last byte; any other is kept as it is. */
  lemma TextureStripsQuotes(t: Token)
    requires Lexeme(t)
    ensures t.text[0] == QUOTE ==> [QUOTE] + TextureOf(t) + [t.text[|t.text| - 1]] == t.text
    ensures t.text[0] != QUOTE ==> TextureOf(t) == t.text
  {
    var r := TextureOf(t);
    if t.text[0] == QUOTE {
      assert t.text == [t.text[0]] + r + [t.text[|t.text| - 1]];
    }
  }

  /**
   * A surface's dialect is chosen by the token after its texture: the axes
   * are present iff that token is `[`.
   */
  lemma SurfaceDialect(c: FloatText, items: seq<Item>, pos: nat)
    requires Stream(items, pos) && SurfaceAt(c, items, pos).Ok?
    ensures pos + 16 < |items| && items[pos + 16].Ok?
    ensures SurfaceAt(c, items, pos).value.value.alignment.axes.Some?
            <==> MatchByte(items[pos + 16].value, LBRACKET)
  {
  }

  /** A stream that ends right after a surface's texture is the end-of-file error, with no line. */
  lemma SurfaceCutAfterTexture(c: FloatText, items: seq<Item>, pos: nat)
    requires Stream(items, pos) && pos + 16 == |items|
    requires PointAt(c, items, pos).Ok? && PointAt(c, items, pos + 5).Ok? && PointAt(c, items, pos + 10).Ok?
    requires items[pos + 15].Ok?
    ensures SurfaceAt(c, items, pos) == Err(Eof())
  {
  }
}
