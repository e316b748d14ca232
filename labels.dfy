/** The four-field label every deflex component carries, and its string
    forms. */
module Labels {
  import opened Strings

  /** A component label: category, tag, subtag and region. */
  datatype Label = Label(cat: string, tag: string, subtag: string, region: string)

  function Fields(l: Label): seq<string>
  {
    [l.cat, l.tag, l.subtag, l.region]
  }

  /** `s.replace(" ", "-")` */
  function Dashed(s: string): string
  {
    Replace(s, " ", "-")
  }

  /** The string form of a label in the live code (`Label.__str__` of the
      scenario tools and `label2str` of the helpers and the analyses):
      the field values joined by "_", every space turned into "-". */
  function LabelStr(l: Label): string
  {
    Dashed(Join(Fields(l), "_"))
  }

  /** The string form of a label in the legacy builder: the field values
      joined by "_", spaces kept. */
  function LegacyLabelStr(l: Label): string
  {
    Join(Fields(l), "_")
  }

  /** Joining four fields. */
  lemma JoinFour(a: string, b: string, c: string, d: string, u: string)
    ensures Join([a, b, c, d], u) == a + u + (b + u + (c + u + d))
  {
    assert [c, d][1..] == [d];
    assert Join([c, d], u) == c + u + d;
    assert [b, c, d][1..] == [c, d];
    assert Join([b, c, d], u) == b + u + (c + u + d);
    assert [a, b, c, d][1..] == [b, c, d];
  }

  /** The live string form is each field with its spaces dashed, in field
      order, separated by "_". */
  lemma LabelStrFields(l: Label)
    ensures LabelStr(l) ==
      Dashed(l.cat) + "_" + Dashed(l.tag) + "_" + Dashed(l.subtag) + "_" + Dashed(l.region)
  {
    var u := "_";
    JoinFour(l.cat, l.tag, l.subtag, l.region, u);
    assert Dashed(u) == u by { ReplaceCharAt(u, ' ', '-'); }
    ReplaceCharConcat(l.subtag + u, l.region, ' ', '-');
    ReplaceCharConcat(l.subtag, u, ' ', '-');
    ReplaceCharConcat(l.tag + u, l.subtag + u + l.region, ' ', '-');
    ReplaceCharConcat(l.tag, u, ' ', '-');
    ReplaceCharConcat(l.cat + u, l.tag + u + (l.subtag + u + l.region), ' ', '-');
    ReplaceCharConcat(l.cat, u, ' ', '-');
  }

  /** The live string form contains no space. */
  lemma LabelStrHasNoSpace(l: Label)
    ensures ' ' !in LabelStr(l)
  {
    ReplaceCharRemoves(Join(Fields(l), "_"), ' ', '-');
  }

  /** Dashing changes no underscore: the live form has the legacy form's
      length and an underscore exactly where the legacy form has one, so
      underscores inside fields survive. */
  lemma LabelStrKeepsUnderscores(l: Label)
    ensures |LabelStr(l)| == |LegacyLabelStr(l)|
    ensures forall i :: 0 <= i < |LabelStr(l)| ==>
      (LabelStr(l)[i] == '_' <==> LegacyLabelStr(l)[i] == '_')
    ensures forall i :: 0 <= i < |LabelStr(l)| && LegacyLabelStr(l)[i] != ' ' ==>
      LabelStr(l)[i] == LegacyLabelStr(l)[i]
  {
    ReplaceCharAt(Join(Fields(l), "_"), ' ', '-');
  }

  /** The live string form is not injective: a space and a dash at the
      same place of the category give the same string ("heat demand" and
      "heat-demand", say). */
  lemma LabelStrNotInjective(x: string, y: string, tag: string, subtag: string, region: string)
    ensures Label(x + " " + y, tag, subtag, region) != Label(x + "-" + y, tag, subtag, region)
    ensures LabelStr(Label(x + " " + y, tag, subtag, region)) == LabelStr(Label(x + "-" + y, tag, subtag, region))
  {
    var a, b := x + " " + y, x + "-" + y;
    assert a[|x|] != b[|x|];
    LabelStrFields(Label(a, tag, subtag, region));
    LabelStrFields(Label(b, tag, subtag, region));
    ReplaceCharConcat(x + " ", y, ' ', '-');
    ReplaceCharConcat(x, " ", ' ', '-');
    ReplaceCharConcat(x + "-", y, ' ', '-');
    ReplaceCharConcat(x, "-", ' ', '-');
    ReplaceCharAt(" ", ' ', '-');
    ReplaceCharAt("-", ' ', '-');
    assert Dashed(" ") == Dashed("-");
  }

  /** Neither string form is injective: an underscore inside a field reads
      like a field separator. */
  lemma LegacyLabelStrNotInjective()
    ensures Label("a_b", "c", "d", "e") != Label("a", "b_c", "d", "e")
    ensures LegacyLabelStr(Label("a_b", "c", "d", "e")) == LegacyLabelStr(Label("a", "b_c", "d", "e"))
  {
    JoinFour("a_b", "c", "d", "e", "_");
    JoinFour("a", "b_c", "d", "e", "_");
  }
}
