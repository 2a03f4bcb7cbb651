/** Exactly which lists of records print like some other list. */
module PrinterCollisions {
  import opened Printers

  /** Some other list has the same text. */
  ghost predicate Collides(a: seq<Record>) {
    exists l: seq<Record> :: l != a && PrintList(l) == PrintList(a)
  }

  /** `v` spells out the end of a value and the head of another record. */
  ghost predicate SpellsRecord(v: string) {
    exists x: string, b: Record, y: string :: Spells(v, x, b, y)
  }

  predicate Spells(v: string, x: string, b: Record, y: string) {
    v == x + "\"), " + Head(b) + y
  }

  lemma ForgedShape(h: string, v: string, end: string, sep: string, h': string, v': string)
    ensures h + (v + (end + sep) + h' + v') + end == (h + v + end) + sep + (h' + v' + end)
  {
  }

  /** One record whose value spells out a second one prints like the two. */
  lemma ForgedPrint(a: Record, b: Record)
    ensures Print(a.(value := a.value + "\"), " + Head(b) + b.value)) == Print(a) + ", " + Print(b)
  {
    var forged := a.(value := a.value + "\"), " + Head(b) + b.value);
    PrintIsHead(a);
    PrintIsHead(b);
    PrintIsHead(forged);
    ForgedShape(Head(a), a.value, "\")", ", ", Head(b), b.value);
    assert "\")" + ", " == "\"), ";
  }

  lemma JoinMerges(a: string, b: string, rest: seq<string>)
    ensures Join([a + ", " + b] + rest) == Join([a, b] + rest)
  {
    assert ([a, b] + rest)[1..] == [b] + rest;
    assert ([a + ", " + b] + rest)[1..] == rest && ([b] + rest)[1..] == rest;
    if rest == [] {
      assert [a + ", " + b] + rest == [a + ", " + b] && [b] + rest == [b];
    } else {
      assert (a + ", " + b) + ", " + Join(rest) == a + ", " + (b + ", " + Join(rest));
    }
  }

  lemma PrintAllConcat(a: seq<Record>, b: seq<Record>)
    ensures PrintAll(a + b) == PrintAll(a) + PrintAll(b)
  {
  }

  /** A list in which the first two records have been merged into one. */
  lemma MergePrints(forged: Record, a: Record, b: Record, rest: seq<Record>)
    requires Print(forged) == Print(a) + ", " + Print(b)
    ensures PrintList([forged] + rest) == PrintList([a, b] + rest)
  {
    PrintAllConcat([forged], rest);
    PrintAllConcat([a, b], rest);
    assert PrintAll([forged]) == [Print(forged)];
    assert PrintAll([a, b]) == [Print(a), Print(b)];
    JoinMerges(Print(a), Print(b), PrintAll(rest));
  }

  /** The first two records of a list can be merged into one without changing the text. */
  lemma MergedCollides(a: seq<Record>)
    requires |a| >= 2
    ensures Collides(a)
  {
    var forged := a[0].(value := a[0].value + "\"), " + Head(a[1]) + a[1].value);
    ForgedPrint(a[0], a[1]);
    MergePrints(forged, a[0], a[1], a[2..]);
    assert a == [a[0], a[1]] + a[2..];
    var l := [forged] + a[2..];
    assert |l| == |a| - 1;
    assert l != a && PrintList(l) == PrintList(a);
  }

  lemma SpelledCollides(a: Record)
    requires SpellsRecord(a.value)
    ensures Collides([a])
  {
    var x, b, y :| Spells(a.value, x, b, y);
    var first, second := a.(value := x), b.(value := y);
    ForgedPrint(first, second);
    assert a == first.(value := x + "\"), " + Head(second) + y);
    MergePrints(a, first, second, []);
    var l := [first, second];
    assert l + [] == l && [a] + [] == [a];
    assert l != [a] && PrintList(l) == PrintList([a]);
  }

  lemma TextShape(h: string, v: string, sep: string, h': string, y: string, end: string)
    ensures h + v + "\")" + (", " + (h' + (y + end))) == h + ((v + "\"), " + h' + y) + end)
  {
    assert "\")" + ", " == "\"), ";
  }

  /** The text of a list after its bracket: the head of the first record, its value, and, when there
      are more records, the head of the second. */
  lemma {:induction false} BodyShape(l: seq<Record>) returns (middle: string, y: string)
    requires l != []
    ensures Body(l) == Head(l[0]) + (middle + "\")]")
    ensures if |l| == 1 then middle == l[0].value else middle == l[0].value + "\"), " + Head(l[1]) + y
  {
    PrintIsHead(l[0]);
    if |l| == 1 {
      middle, y := l[0].value, "";
      assert PrintAll(l) == [Print(l[0])];
      assert Body(l) == Head(l[0]) + (middle + ("\")" + "]"));
    } else {
      var rest, _ := BodyShape(l[1..]);
      y := rest;
      middle := l[0].value + "\"), " + Head(l[1]) + y;
      JoinStep(l);
      TextShape(Head(l[0]), l[0].value, ", ", Head(l[1]), y, "\")]");
    }
  }

  lemma SameEnd(a: string, b: string, end: string)
    requires a + end == b + end
    ensures a == b
  {
    assert a == (a + end)[..|a + end| - |end|];
    assert b == (b + end)[..|b + end| - |end|];
  }

  lemma SameStart(start: string, a: string, b: string)
    requires start + a == start + b
    ensures a == b
  {
    assert a == (start + a)[|start|..];
    assert b == (start + b)[|start|..];
  }

  lemma PrintIsBody(l: seq<Record>)
    ensures PrintList(l) == "[" + Body(l)
  {
  }

  lemma EmptyIsAlone(l: seq<Record>)
    requires l != []
    ensures PrintList(l) != PrintList([])
  {
    var middle, y := BodyShape(l);
    PrintIsBody(l);
    assert PrintAll([]) == [];
    assert |PrintList([])| == 2;
  }

  lemma SameBody(a: Record, l: seq<Record>)
    requires PrintList(l) == PrintList([a])
    ensures l != [] && Body(l) == Body([a])
  {
    if l == [] {
      EmptyIsAlone([a]);
    }
    PrintIsBody(l);
    PrintIsBody([a]);
    SameStart("[", Body(l), Body([a]));
  }

  /** A list that prints like a single record is that record, or the record spells another one. */
  lemma CollisionSpells(a: Record, l: seq<Record>)
    requires PrintList(l) == PrintList([a])
    ensures l == [a] || SpellsRecord(a.value)
  {
    SameBody(a, l);
    var mine, _ := BodyShape([a]);
    var theirs, y := BodyShape(l);
    HeadRoundTrip(a, mine + "\")]");
    HeadRoundTrip(l[0], theirs + "\")]");
    SameEnd(mine, theirs, "\")]");
    if |l| == 1 {
      assert l == [l[0]];
    } else {
      assert Spells(a.value, l[0].value, l[1], y);
    }
  }

  /** Exactly which lists cannot be told from their text: those of two or more records, always, and a
      single record whose value spells out the end of a value and the head of another record. */
  lemma CollidesIff(a: seq<Record>)
    ensures Collides(a) <==> |a| >= 2 || (|a| == 1 && SpellsRecord(a[0].value))
  {
    if |a| >= 2 {
      MergedCollides(a);
    } else if |a| == 1 {
      assert a == [a[0]];
      if SpellsRecord(a[0].value) {
        SpelledCollides(a[0]);
      }
      if l: seq<Record> :| l != a && PrintList(l) == PrintList(a) {
        CollisionSpells(a[0], l);
      }
    } else {
      forall l: seq<Record> | l != a ensures PrintList(l) != PrintList(a) {
        EmptyIsAlone(l);
      }
    }
  }
}
