/** The two label-to-key tables the bot offers as reply keyboards: GOALS and LEVELS.
    Each table is kept as the ordered list of its (label, key) entries, because the
    keyboard shows the labels in declaration order (a Python dict keeps insertion order);
    the dictionary itself is derived from that list. */
module Tables {

  datatype Option<T> = None | Some(value: T)

  /** An ordered table of (human-readable label, canonical key) entries. */
  type Table = seq<(string, string)>

  /** GOALS, in declaration order. */
  const GoalTable: Table := [
    ("Сжигание жира", "weight_loss"),
    ("Набор массы", "muscle_gain"),
    ("Сила", "strength"),
    ("Выносливость", "endurance")
  ]

  /** LEVELS, in declaration order. */
  const LevelTable: Table := [
    ("Новичок", "beginner"),
    ("Средний", "intermediate"),
    ("Продвинутый", "advanced")
  ]

  /** The labels of a table in order: `dict.keys()`. */
  function Labels(t: Table): (ls: seq<string>)
    ensures |ls| == |t|
    ensures forall i :: 0 <= i < |t| ==> ls[i] == t[i].0
  {
    seq(|t|, i requires 0 <= i < |t| => t[i].0)
  }

  /** No label occurs twice. */
  predicate DistinctLabels(t: Table) {
    forall i, j :: 0 <= i < j < |t| ==> t[i].0 != t[j].0
  }

  /** No key occurs twice. */
  predicate DistinctKeys(t: Table) {
    forall i, j :: 0 <= i < j < |t| ==> t[i].1 != t[j].1
  }

  /** The dictionary a Python dict display builds from the entries (a later entry
      with the same label would overwrite an earlier one). */
  function AsMap(t: Table): (m: map<string, string>)
    ensures m.Keys == set i | 0 <= i < |t| :: t[i].0
  {
    if t == [] then map[] else AsMap(t[..|t| - 1])[t[|t| - 1].0 := t[|t| - 1].1]
  }

  /** `GOALS` as a dictionary. */
  function Goals(): map<string, string> { AsMap(GoalTable) }

  /** `LEVELS` as a dictionary. */
  function Levels(): map<string, string> { AsMap(LevelTable) }

  /** The label of the first entry whose key is `key`: the inverse lookup. */
  function LabelOf(t: Table, key: string): (r: Option<string>)
    ensures r.Some? ==> exists i :: 0 <= i < |t| && t[i] == (r.value, key)
    ensures r.None? ==> forall i :: 0 <= i < |t| ==> t[i].1 != key
  {
    if t == [] then None
    else if t[0].1 == key then Some(t[0].0)
    else LabelOf(t[1..], key)
  }

  /** One keyboard row per label, each row holding that label alone: `[[l] for l in T.keys()]`. */
  function Keyboard(t: Table): (rows: seq<seq<string>>)
    ensures |rows| == |t|
    ensures forall i :: 0 <= i < |t| ==> rows[i] == [Labels(t)[i]]
  {
    seq(|t|, i requires 0 <= i < |t| => [t[i].0])
  }

  /** With distinct labels, every entry survives into the dictionary unchanged. */
  lemma {:induction false} AsMapAt(t: Table, i: int)
    requires DistinctLabels(t)
    requires 0 <= i < |t|
    ensures t[i].0 in AsMap(t) && AsMap(t)[t[i].0] == t[i].1
  {
    var n := |t| - 1;
    if i < n {
      AsMapAt(t[..n], i);
    }
  }

  /** With distinct labels, the dictionary has exactly one key per entry. */
  lemma {:induction false} AsMapSize(t: Table)
    requires DistinctLabels(t)
    ensures |AsMap(t)| == |t|
  {
    if t != [] {
      var n := |t| - 1;
      AsMapSize(t[..n]);
      assert t[n].0 !in AsMap(t[..n]);
    }
  }

  /** Every dictionary entry comes from some table entry. */
  lemma {:induction false} AsMapFrom(t: Table, lab: string)
    requires lab in AsMap(t)
    ensures exists i :: 0 <= i < |t| && t[i] == (lab, AsMap(t)[lab])
  {
    var n := |t| - 1;
    if t[n].0 != lab {
      AsMapFrom(t[..n], lab);
      var i :| 0 <= i < n && t[..n][i] == (lab, AsMap(t[..n])[lab]);
      assert t[i] == (lab, AsMap(t)[lab]);
    } else {
      assert t[n] == (lab, AsMap(t)[lab]);
    }
  }

  /** With distinct keys, the inverse lookup finds exactly the entry holding the key. */
  lemma {:induction false} LabelOfAt(t: Table, i: int)
    requires DistinctKeys(t)
    requires 0 <= i < |t|
    ensures LabelOf(t, t[i].1) == Some(t[i].0)
  {
    if i > 0 {
      assert t[0].1 != t[i].1;
      LabelOfAt(t[1..], i - 1);
    }
  }

  /** A table with distinct labels and keys is an injective dictionary, and LabelOf
      inverts it on its range, in both directions. */
  lemma TableIsInvertible(t: Table)
    requires DistinctLabels(t) && DistinctKeys(t)
    ensures forall a, b :: a in AsMap(t) && b in AsMap(t) && a != b ==> AsMap(t)[a] != AsMap(t)[b]
    ensures forall l :: l in AsMap(t) ==> LabelOf(t, AsMap(t)[l]) == Some(l)
    ensures forall k :: k in AsMap(t).Values ==> LabelOf(t, k).Some? && AsMap(t)[LabelOf(t, k).value] == k
  {
    forall l | l in AsMap(t)
      ensures LabelOf(t, AsMap(t)[l]) == Some(l)
    {
      AsMapFrom(t, l);
      var i :| 0 <= i < |t| && t[i] == (l, AsMap(t)[l]);
      LabelOfAt(t, i);
    }
    forall a, b | a in AsMap(t) && b in AsMap(t) && a != b
      ensures AsMap(t)[a] != AsMap(t)[b]
    {
      assert LabelOf(t, AsMap(t)[a]) == Some(a);
      assert LabelOf(t, AsMap(t)[b]) == Some(b);
    }
    forall k | k in AsMap(t).Values
      ensures LabelOf(t, k).Some? && AsMap(t)[LabelOf(t, k).value] == k
    {
      var l :| l in AsMap(t) && AsMap(t)[l] == k;
      assert LabelOf(t, AsMap(t)[l]) == Some(l);
    }
  }

  /** In GOALS and in LEVELS, labels and keys are pairwise distinct. */
  lemma TablesDistinct()
    ensures DistinctLabels(GoalTable) && DistinctKeys(GoalTable)
    ensures DistinctLabels(LevelTable) && DistinctKeys(LevelTable)
  {
    var g, l := GoalTable, LevelTable;
    assert g[0].1[0] == 'w' && g[1].1[0] == 'm' && g[2].1[0] == 's' && g[3].1[0] == 'e';
    assert |g[0].0| == 13 && |g[1].0| == 11 && |g[2].0| == 4 && |g[3].0| == 12;
    assert l[0].0[0] == 'Н' && l[1].0[0] == 'С' && l[2].0[0] == 'П';
    assert l[0].1[0] == 'b' && l[1].1[0] == 'i' && l[2].1[0] == 'a';
  }

  /** GOALS has exactly four labels and LEVELS exactly three, with these keys. */
  lemma TablesShape()
    ensures |Goals()| == 4 && |Levels()| == 3
    ensures Goals().Values == {"weight_loss", "muscle_gain", "strength", "endurance"}
    ensures Levels().Values == {"beginner", "intermediate", "advanced"}
  {
    TablesDistinct();
    AsMapSize(GoalTable);
    AsMapSize(LevelTable);
    GoalValues();
    LevelValues();
  }

  /** With distinct labels, the dictionary's values are exactly the table's keys. */
  lemma AsMapValues(t: Table)
    requires DistinctLabels(t)
    ensures AsMap(t).Values == set i | 0 <= i < |t| :: t[i].1
  {
    var vs := set i | 0 <= i < |t| :: t[i].1;
    forall k | k in vs ensures k in AsMap(t).Values {
      var i :| 0 <= i < |t| && t[i].1 == k;
      AsMapAt(t, i);
    }
    forall k | k in AsMap(t).Values ensures k in vs {
      var l :| l in AsMap(t) && AsMap(t)[l] == k;
      AsMapFrom(t, l);
      var i :| 0 <= i < |t| && t[i] == (l, k);
    }
  }

  lemma GoalValues()
    requires DistinctLabels(GoalTable)
    ensures Goals().Values == {"weight_loss", "muscle_gain", "strength", "endurance"}
  {
    AsMapValues(GoalTable);
    var g := GoalTable;
    assert (set i | 0 <= i < 4 :: g[i].1) == {g[0].1, g[1].1, g[2].1, g[3].1} by {
      forall i | 0 <= i < 4 ensures g[i].1 in {g[0].1, g[1].1, g[2].1, g[3].1} {
        assert i == 0 || i == 1 || i == 2 || i == 3;
      }
    }
  }

  lemma LevelValues()
    requires DistinctLabels(LevelTable)
    ensures Levels().Values == {"beginner", "intermediate", "advanced"}
  {
    AsMapValues(LevelTable);
    var l := LevelTable;
    assert (set i | 0 <= i < 3 :: l[i].1) == {l[0].1, l[1].1, l[2].1} by {
      forall i | 0 <= i < 3 ensures l[i].1 in {l[0].1, l[1].1, l[2].1} {
        assert i == 0 || i == 1 || i == 2;
      }
    }
  }

  /** The keyboard `create` and `handle_goal` show offers each label once, and exactly
      the dictionary's labels. */
  lemma KeyboardOffersLabels(t: Table)
    requires DistinctLabels(t)
    ensures forall i, j :: 0 <= i < j < |t| ==> Keyboard(t)[i] != Keyboard(t)[j]
    ensures (set i | 0 <= i < |t| :: Keyboard(t)[i][0]) == AsMap(t).Keys
  {
    forall i, j | 0 <= i < j < |t| ensures Keyboard(t)[i] != Keyboard(t)[j] {
      assert Keyboard(t)[i][0] == t[i].0;
      assert Keyboard(t)[j][0] == t[j].0;
    }
    var shown := set i | 0 <= i < |t| :: Keyboard(t)[i][0];
    forall l | l in AsMap(t) ensures l in shown {
      var i :| 0 <= i < |t| && t[i].0 == l;
      assert Keyboard(t)[i][0] == l;
    }
  }

  /** GOALS and LEVELS are injective, and the inverse lookup takes every key back to
      the one label that maps to it. */
  lemma GoalsAndLevelsInvertible()
    ensures forall a, b :: a in Goals() && b in Goals() && a != b ==> Goals()[a] != Goals()[b]
    ensures forall k :: k in Goals().Values ==> LabelOf(GoalTable, k).Some? && Goals()[LabelOf(GoalTable, k).value] == k
    ensures forall l :: l in Goals() ==> LabelOf(GoalTable, Goals()[l]) == Some(l)
    ensures forall a, b :: a in Levels() && b in Levels() && a != b ==> Levels()[a] != Levels()[b]
    ensures forall k :: k in Levels().Values ==> LabelOf(LevelTable, k).Some? && Levels()[LabelOf(LevelTable, k).value] == k
    ensures forall l :: l in Levels() ==> LabelOf(LevelTable, Levels()[l]) == Some(l)
  {
    TablesDistinct();
    TableIsInvertible(GoalTable);
    TableIsInvertible(LevelTable);
  }
}
