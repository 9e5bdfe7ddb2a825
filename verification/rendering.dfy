/** The reply text `handle_level` builds from a program record: a banner, the title and
    description, one bullet per feature, one bullet per day of the weekly schedule, the
    nutrition and water lines, and a tips line only when the record has tips.
    The text is specified as the concatenation of its lines (`Render`), and built the
    way the handler builds it, by appending to an accumulator (`RenderText`). */
module Rendering {
  import opened Tables

  /** A program record of the catalog. The weekly schedule is a dictionary in the
      source; only its iteration order matters here, so it is the ordered list of its
      (day, workout) items. */
  datatype Program = Program(
    title: string,
    description: string,
    features: seq<string>,
    schedule: seq<(string, string)>,
    nutrition: string,
    water: string,
    tips: Option<string>)

  const Banner: string := "🎉 **Ваша программа:**\n\n"
  const FeaturesHeading: string := "✨ **Особенности:**\n"
  const ScheduleHeading: string := "\n📅 **Расписание:**\n"

  function TitleLine(p: Program): string { "**" + p.title + "**\n" }
  function DescriptionLine(p: Program): string { p.description + "\n\n" }
  function FeatureLine(f: string): string { "• " + f + "\n" }
  function ScheduleLine(entry: (string, string)): string { "• " + entry.0 + ": " + entry.1 + "\n" }
  function NutritionLine(p: Program): string { "\n🥗 Питание: " + p.nutrition + "\n" }
  function WaterLine(p: Program): string { "💧 Вода: " + p.water + "\n" }
  function TipLine(tip: string): string { "💡 Совет: " + tip + "\n" }

  /** The four lines before the feature bullets. */
  function Opening(p: Program): seq<string> {
    [Banner, TitleLine(p), DescriptionLine(p), FeaturesHeading]
  }

  function FeatureLines(fs: seq<string>): (ls: seq<string>)
    ensures |ls| == |fs|
  {
    seq(|fs|, i requires 0 <= i < |fs| => FeatureLine(fs[i]))
  }

  function ScheduleLines(es: seq<(string, string)>): (ls: seq<string>)
    ensures |ls| == |es|
  {
    seq(|es|, i requires 0 <= i < |es| => ScheduleLine(es[i]))
  }

  function TipLines(tips: Option<string>): seq<string> {
    match tips
    case Some(t) => [TipLine(t)]
    case None => []
  }

  /** Everything after the schedule bullets. */
  function Closing(p: Program): seq<string> {
    [NutritionLine(p), WaterLine(p)] + TipLines(p.tips)
  }

  /** The lines of the reply, in the order the handler appends them (`LinesLayout`
      says which line is where): one per feature, one per schedule entry, the four
      opening lines, the schedule heading, and two or three closing lines. */
  function Lines(p: Program): (ls: seq<string>)
    ensures |ls| == 4 + |p.features| + 1 + |p.schedule| + (if p.tips.Some? then 3 else 2)
  {
    Opening(p) + FeatureLines(p.features) + [ScheduleHeading] + ScheduleLines(p.schedule) + Closing(p)
  }

  /** Concatenation of lines, each appended to the end of what is already there. */
  function Join(lines: seq<string>): string {
    if lines == [] then "" else Join(lines[..|lines| - 1]) + lines[|lines| - 1]
  }

  /** The reply text for a program record. It opens with the banner, the bold title,
      the description and the features heading. */
  function Render(p: Program): (r: string)
    ensures Banner + TitleLine(p) + DescriptionLine(p) + FeaturesHeading <= r
  {
    var rest := FeatureLines(p.features) + [ScheduleHeading] + ScheduleLines(p.schedule) + Closing(p);
    assert Lines(p) == Opening(p) + rest;
    JoinAppend(Opening(p), rest);
    JoinOpening(p);
    Join(Lines(p))
  }

  /** Where line `k` begins in the joined text. */
  function LineStart(lines: seq<string>, k: int): nat
    requires 0 <= k <= |lines|
  {
    |Join(lines[..k])|
  }

  /** Where the bullet of feature `i` begins in the reply. */
  function FeatureStart(p: Program, i: int): nat
    requires 0 <= i < |p.features|
  {
    LineStart(Lines(p), |Opening(p)| + i)
  }

  /** Where the bullet of schedule entry `k` begins in the reply. */
  function ScheduleStart(p: Program, k: int): nat
    requires 0 <= k < |p.schedule|
  {
    LineStart(Lines(p), |Opening(p)| + |p.features| + 1 + k)
  }

  /** Where the closing lines (nutrition, water, tips) begin in the reply. */
  function ClosingStart(p: Program): nat {
    LineStart(Lines(p), |Lines(p)| - |Closing(p)|)
  }

  lemma {:induction false} JoinAppend(a: seq<string>, b: seq<string>)
    ensures Join(a + b) == Join(a) + Join(b)
  {
    if b == [] {
      assert a + b == a;
    } else {
      var n := |b| - 1;
      assert (a + b)[..|a + b| - 1] == a + b[..n];
      JoinAppend(a, b[..n]);
    }
  }

  lemma JoinSnoc(lines: seq<string>, last: string)
    ensures Join(lines + [last]) == Join(lines) + last
  {
    assert (lines + [last])[..|lines|] == lines;
  }

  lemma JoinOpening(p: Program)
    ensures Join(Opening(p)) == Banner + TitleLine(p) + DescriptionLine(p) + FeaturesHeading
  {
    assert [] + [Banner] == [Banner];
    assert [Banner] + [TitleLine(p)] == [Banner, TitleLine(p)];
    assert [Banner, TitleLine(p)] + [DescriptionLine(p)] == [Banner, TitleLine(p), DescriptionLine(p)];
    assert [Banner, TitleLine(p), DescriptionLine(p)] + [FeaturesHeading] == Opening(p);
    JoinSnoc([], Banner);
    JoinSnoc([Banner], TitleLine(p));
    JoinSnoc([Banner, TitleLine(p)], DescriptionLine(p));
    JoinSnoc([Banner, TitleLine(p), DescriptionLine(p)], FeaturesHeading);
  }

  /** Line `k` occurs in the joined text, intact, at its start position. */
  lemma LineAt(lines: seq<string>, k: int)
    requires 0 <= k < |lines|
    ensures LineStart(lines, k) + |lines[k]| <= |Join(lines)|
    ensures Join(lines)[LineStart(lines, k)..LineStart(lines, k) + |lines[k]|] == lines[k]
  {
    assert lines == lines[..k] + [lines[k]] + lines[k + 1..];
    JoinAppend(lines[..k] + [lines[k]], lines[k + 1..]);
    JoinAppend(lines[..k], [lines[k]]);
    assert Join([lines[k]]) == lines[k] by {
      assert [lines[k]][..0] == [];
    }
  }

  /** A later line starts no earlier than the end of an earlier one. */
  lemma LineStartGrows(lines: seq<string>, j: int, k: int)
    requires 0 <= j < k <= |lines|
    ensures LineStart(lines, j) + |lines[j]| <= LineStart(lines, k)
  {
    assert lines[..k] == lines[..j + 1] + lines[j + 1..k];
    JoinAppend(lines[..j + 1], lines[j + 1..k]);
    assert lines[..j + 1] == lines[..j] + [lines[j]];
    JoinAppend(lines[..j], [lines[j]]);
    assert Join([lines[j]]) == lines[j] by {
      assert [lines[j]][..0] == [];
    }
  }

  /** The opening lines, then one bullet per feature in list order, the schedule
      heading, one bullet per schedule entry in schedule order, and the closing lines. */
  lemma LinesLayout(p: Program)
    ensures Lines(p)[..|Opening(p)|] == Opening(p)
    ensures forall i :: 0 <= i < |p.features| ==> Lines(p)[|Opening(p)| + i] == FeatureLine(p.features[i])
    ensures Lines(p)[|Opening(p)| + |p.features|] == ScheduleHeading
    ensures forall k :: 0 <= k < |p.schedule| ==>
      Lines(p)[|Opening(p)| + |p.features| + 1 + k] == ScheduleLine(p.schedule[k])
    ensures Lines(p)[|Lines(p)| - |Closing(p)|..] == Closing(p)
  {
  }

  /** The feature bullets start after the opening text: the first one right at its end. */
  lemma OpeningBeforeFeatures(p: Program, i: int)
    requires 0 <= i < |p.features|
    ensures |Banner + TitleLine(p) + DescriptionLine(p) + FeaturesHeading| <= FeatureStart(p, i)
    ensures i == 0 ==> FeatureStart(p, i) == |Banner + TitleLine(p) + DescriptionLine(p) + FeaturesHeading|
  {
    var n := |Opening(p)|;
    assert Lines(p)[..n + i] == Opening(p) + Lines(p)[n..n + i];
    JoinAppend(Opening(p), Lines(p)[n..n + i]);
    JoinOpening(p);
    if i == 0 {
      assert Lines(p)[n..n + i] == [];
    }
  }

  /** The schedule bullets start after the opening text, even when there are no
      features. */
  lemma OpeningBeforeSchedule(p: Program, k: int)
    requires 0 <= k < |p.schedule|
    ensures |Banner + TitleLine(p) + DescriptionLine(p) + FeaturesHeading| <= ScheduleStart(p, k)
  {
    var n, m := |Opening(p)|, |Opening(p)| + |p.features| + 1 + k;
    assert Lines(p)[..m] == Opening(p) + Lines(p)[n..m];
    JoinAppend(Opening(p), Lines(p)[n..m]);
    JoinOpening(p);
  }

  /** Every feature bullet ends before the closing lines begin, even when the schedule
      is empty. */
  lemma FeaturesBeforeClosing(p: Program, i: int)
    requires 0 <= i < |p.features|
    ensures FeatureStart(p, i) + |FeatureLine(p.features[i])| <= ClosingStart(p)
  {
    assert Lines(p)[|Opening(p)| + i] == FeatureLine(p.features[i]);
    LineStartGrows(Lines(p), |Opening(p)| + i, |Lines(p)| - |Closing(p)|);
  }

  /** Every feature appears as its own bullet. */
  lemma RenderShowsFeature(p: Program, i: int)
    requires 0 <= i < |p.features|
    ensures FeatureStart(p, i) + |FeatureLine(p.features[i])| <= |Render(p)|
    ensures Render(p)[FeatureStart(p, i)..FeatureStart(p, i) + |FeatureLine(p.features[i])|]
            == FeatureLine(p.features[i])
  {
    assert Lines(p)[|Opening(p)| + i] == FeatureLine(p.features[i]);
    LineAt(Lines(p), |Opening(p)| + i);
  }

  /** Feature bullets appear in the order of the feature list, without overlapping. */
  lemma FeaturesInOrder(p: Program, i: int, j: int)
    requires 0 <= i < j < |p.features|
    ensures FeatureStart(p, i) + |FeatureLine(p.features[i])| <= FeatureStart(p, j)
  {
    assert Lines(p)[|Opening(p)| + i] == FeatureLine(p.features[i]);
    LineStartGrows(Lines(p), |Opening(p)| + i, |Opening(p)| + j);
  }

  /** Every schedule entry appears as a `day: workout` bullet. */
  lemma RenderShowsScheduleEntry(p: Program, k: int)
    requires 0 <= k < |p.schedule|
    ensures ScheduleStart(p, k) + |ScheduleLine(p.schedule[k])| <= |Render(p)|
    ensures Render(p)[ScheduleStart(p, k)..ScheduleStart(p, k) + |ScheduleLine(p.schedule[k])|]
            == ScheduleLine(p.schedule[k])
  {
    var n := |Opening(p)| + |p.features| + 1 + k;
    assert Lines(p)[n] == ScheduleLine(p.schedule[k]);
    LineAt(Lines(p), n);
  }

  /** Schedule bullets appear in schedule order, without overlapping. */
  lemma ScheduleInOrder(p: Program, k: int, l: int)
    requires 0 <= k < l < |p.schedule|
    ensures ScheduleStart(p, k) + |ScheduleLine(p.schedule[k])| <= ScheduleStart(p, l)
  {
    var base := |Opening(p)| + |p.features| + 1;
    assert Lines(p)[base + k] == ScheduleLine(p.schedule[k]);
    LineStartGrows(Lines(p), base + k, base + l);
  }

  /** All feature bullets come before all schedule bullets. */
  lemma FeaturesBeforeSchedule(p: Program, i: int, k: int)
    requires 0 <= i < |p.features|
    requires 0 <= k < |p.schedule|
    ensures FeatureStart(p, i) + |FeatureLine(p.features[i])| <= ScheduleStart(p, k)
  {
    assert Lines(p)[|Opening(p)| + i] == FeatureLine(p.features[i]);
    LineStartGrows(Lines(p), |Opening(p)| + i, |Opening(p)| + |p.features| + 1 + k);
  }

  /** Every schedule bullet ends before the closing lines begin, the last one exactly
      where they begin. */
  lemma ScheduleBeforeClosing(p: Program, k: int)
    requires 0 <= k < |p.schedule|
    ensures ScheduleStart(p, k) + |ScheduleLine(p.schedule[k])| <= ClosingStart(p)
    ensures k == |p.schedule| - 1 ==> ScheduleStart(p, k) + |ScheduleLine(p.schedule[k])| == ClosingStart(p)
  {
    var ls := Lines(p);
    var m := |ls| - |Closing(p)|;
    var n := |Opening(p)| + |p.features| + 1 + k;
    assert ls[n] == ScheduleLine(p.schedule[k]);
    if k < |p.schedule| - 1 {
      LineStartGrows(ls, n, m);
    } else {
      assert ls[..m] == ls[..n] + [ls[n]];
      JoinSnoc(ls[..n], ls[n]);
    }
  }

  /** From where the closing lines begin, the reply continues with the nutrition line and
      then the water line. */
  lemma ClosingAfterSchedule(p: Program)
    ensures ClosingStart(p) <= |Render(p)|
    ensures NutritionLine(p) + WaterLine(p) <= Render(p)[ClosingStart(p)..]
  {
    var ls := Lines(p);
    var m := |ls| - |Closing(p)|;
    assert ls == ls[..m] + Closing(p);
    JoinAppend(ls[..m], Closing(p));
    assert Closing(p) == [NutritionLine(p), WaterLine(p)] + TipLines(p.tips);
    JoinAppend([NutritionLine(p), WaterLine(p)], TipLines(p.tips));
    assert Join([NutritionLine(p), WaterLine(p)]) == NutritionLine(p) + WaterLine(p) by {
      assert [NutritionLine(p), WaterLine(p)][..1] == [NutritionLine(p)];
      assert [NutritionLine(p)][..0] == [];
    }
  }

  /** Without tips the reply ends with the nutrition and water lines; with tips it is that
      same text followed by exactly the tips line. So the tips line is shown if and only
      if the record has tips. */
  lemma RenderClosing(p: Program)
    ensures var bare, last := Render(p.(tips := None)), NutritionLine(p) + WaterLine(p);
      |last| <= |bare| && bare[|bare| - |last|..] == last
    ensures p.tips.None? ==> Render(p) == Render(p.(tips := None))
    ensures p.tips.Some? ==> Render(p) == Render(p.(tips := None)) + TipLine(p.tips.value)
    ensures p.tips.Some? <==> |Render(p)| > |Render(p.(tips := None))|
  {
    var q := p.(tips := None);
    var body := Opening(p) + FeatureLines(p.features) + [ScheduleHeading] + ScheduleLines(p.schedule);
    assert Lines(q) == body + [NutritionLine(p), WaterLine(p)];
    assert Lines(p) == body + [NutritionLine(p), WaterLine(p)] + TipLines(p.tips);
    JoinAppend(body, [NutritionLine(p), WaterLine(p)]);
    JoinAppend(body + [NutritionLine(p), WaterLine(p)], TipLines(p.tips));
    assert Join([NutritionLine(p), WaterLine(p)]) == NutritionLine(p) + WaterLine(p) by {
      assert [NutritionLine(p), WaterLine(p)][..1] == [NutritionLine(p)];
      assert [NutritionLine(p)][..0] == [];
    }
    if p.tips.Some? {
      assert Join([TipLine(p.tips.value)]) == TipLine(p.tips.value) by {
        assert [TipLine(p.tips.value)][..0] == [];
      }
    }
  }

  lemma FeatureLinesSnoc(head: seq<string>, fs: seq<string>, i: int)
    requires 0 <= i < |fs|
    ensures head + FeatureLines(fs[..i + 1]) == head + FeatureLines(fs[..i]) + [FeatureLine(fs[i])]
  {
    assert FeatureLines(fs[..i + 1]) == FeatureLines(fs[..i]) + [FeatureLine(fs[i])];
  }

  lemma ScheduleLinesSnoc(head: seq<string>, es: seq<(string, string)>, k: int)
    requires 0 <= k < |es|
    ensures head + ScheduleLines(es[..k + 1]) == head + ScheduleLines(es[..k]) + [ScheduleLine(es[k])]
  {
    assert ScheduleLines(es[..k + 1]) == ScheduleLines(es[..k]) + [ScheduleLine(es[k])];
  }

  /** Appending the closing lines appends nutrition, water and, if any, the tips line. */
  lemma JoinClosing(body: seq<string>, p: Program)
    ensures Join(body + Closing(p))
         == Join(body) + NutritionLine(p) + WaterLine(p) + (if p.tips.Some? then TipLine(p.tips.value) else "")
  {
    JoinSnoc(body, NutritionLine(p));
    JoinSnoc(body + [NutritionLine(p)], WaterLine(p));
    assert body + [NutritionLine(p)] + [WaterLine(p)] == body + [NutritionLine(p), WaterLine(p)];
    if p.tips.Some? {
      JoinSnoc(body + [NutritionLine(p), WaterLine(p)], TipLine(p.tips.value));
      assert body + Closing(p) == body + [NutritionLine(p), WaterLine(p)] + [TipLine(p.tips.value)];
    } else {
      assert body + Closing(p) == body + [NutritionLine(p), WaterLine(p)];
    }
  }

  /** The reply text, built as `handle_level` builds it: start from the banner and
      append the title, the description, the features heading, one bullet per feature,
      the schedule heading, one bullet per schedule entry, nutrition, water and, when the
      record has tips, the tips line. */
  method RenderText(p: Program) returns (text: string)
    ensures text == Render(p)
  {
    text := Banner;
    text := text + TitleLine(p);
    text := text + DescriptionLine(p);
    text := text + FeaturesHeading;
    JoinOpening(p);
    assert Opening(p) + FeatureLines(p.features[..0]) == Opening(p);
    var i := 0;
    while i < |p.features|
      invariant 0 <= i <= |p.features|
      invariant text == Join(Opening(p) + FeatureLines(p.features[..i]))
    {
      FeatureLinesSnoc(Opening(p), p.features, i);
      JoinSnoc(Opening(p) + FeatureLines(p.features[..i]), FeatureLine(p.features[i]));
      text := text + FeatureLine(p.features[i]);
      i := i + 1;
    }
    assert p.features[..i] == p.features;
    text := text + ScheduleHeading;
    ghost var head := Opening(p) + FeatureLines(p.features) + [ScheduleHeading];
    JoinSnoc(Opening(p) + FeatureLines(p.features), ScheduleHeading);
    assert head + ScheduleLines(p.schedule[..0]) == head;
    var k := 0;
    while k < |p.schedule|
      invariant 0 <= k <= |p.schedule|
      invariant text == Join(head + ScheduleLines(p.schedule[..k]))
    {
      ScheduleLinesSnoc(head, p.schedule, k);
      JoinSnoc(head + ScheduleLines(p.schedule[..k]), ScheduleLine(p.schedule[k]));
      text := text + ScheduleLine(p.schedule[k]);
      k := k + 1;
    }
    assert p.schedule[..k] == p.schedule;
    ghost var body := head + ScheduleLines(p.schedule);
    text := text + NutritionLine(p);
    text := text + WaterLine(p);
    if p.tips.Some? {
      text := text + TipLine(p.tips.value);
    }
    JoinClosing(body, p);
    assert Lines(p) == body + Closing(p);
  }
}
