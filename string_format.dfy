/**
 * The part of java.lang.String.format that the dialect templates use. A
 * template is kept as the literal text between its "%s" placeholders, so a
 * template with n placeholders has n + 1 parts; formatting puts the i-th
 * argument where the i-th placeholder stood. No template of the store holds
 * any other '%' conversion.
 */
module StringFormat {

  datatype Template = Template(parts: seq<string>)
  {
    predicate Valid() { |parts| > 0 }

    /** How many "%s" placeholders the template holds. */
    function Placeholders(): nat
      requires Valid()
    {
      |parts| - 1
    }

    /** The template as written, each placeholder spelled "%s". */
    function Text(): string
      requires Valid()
    {
      Join(parts)
    }
  }

  function Join(parts: seq<string>): string
    requires |parts| > 0
  {
    if |parts| == 1 then parts[0] else Join(parts[..|parts| - 1]) + "%s" + parts[|parts| - 1]
  }

  /**
   * String.format(template, args...) for templates whose only conversion is
   * "%s". Java raises MissingFormatArgumentException when arguments run out;
   * every call in the store passes exactly one argument per placeholder.
   */
  function Format(t: Template, args: seq<string>): string
    requires t.Valid() && |args| >= t.Placeholders()
    decreases |t.parts|
  {
    if |t.parts| == 1 then t.parts[0]
    else
      var n := |t.parts| - 1;
      Format(Template(t.parts[..n]), args[..n - 1]) + args[n - 1] + t.parts[n]
  }

  /** A one-placeholder template: the argument lands between the two literal parts. */
  lemma Fill1(h: string, t: string, a: string)
    ensures Template([h, t]).Text() == h + "%s" + t
    ensures Format(Template([h, t]), [a]) == h + a + t
  {
    assert [h, t][..1] == [h];
    assert Join([h, t]) == Join([h]) + "%s" + t;
  }

  /** A two-placeholder template: the arguments land in order between the literal parts. */
  lemma Fill2(h: string, m: string, t: string, a: string, b: string)
    ensures Template([h, m, t]).Text() == h + "%s" + m + "%s" + t
    ensures Format(Template([h, m, t]), [a, b]) == h + a + m + b + t
  {
    assert [h, m, t][..2] == [h, m];
    assert [a, b][..1] == [a];
    Fill1(h, m, a);
    assert Join([h, m, t]) == Join([h, m]) + "%s" + t;
  }

  /** Every argument "%s": a list of n placeholders. */
  function Placeholders(n: nat): (r: seq<string>)
    ensures |r| == n && forall i :: 0 <= i < n ==> r[i] == "%s"
  {
    seq(n, _ => "%s")
  }

  /** Format puts each argument exactly where a placeholder stood: filling every placeholder with "%s" gives the template text back. */
  lemma {:induction false} FormatRestoresText(t: Template)
    requires t.Valid()
    ensures Format(t, Placeholders(t.Placeholders())) == t.Text()
    decreases |t.parts|
  {
    if |t.parts| > 1 {
      var n := |t.parts| - 1;
      FormatRestoresText(Template(t.parts[..n]));
      assert Placeholders(n)[..n - 1] == Placeholders(n - 1);
    }
  }

  /** String.contains: `w` occurs in `s` at some index. */
  ghost predicate Contains(s: string, w: string)
  {
    exists k :: 0 <= k <= |s| && w <= s[k..]
  }

  /** A one-placeholder template whose text after the placeholder starts with `name`: the result holds the argument followed by `name`. */
  lemma FillBefore(t: Template, a: string, name: string)
    requires |t.parts| == 2 && name <= t.parts[1]
    ensures Contains(Format(t, [a]), a + name)
  {
    Fill1(t.parts[0], t.parts[1], a);
    assert t == Template([t.parts[0], t.parts[1]]);
    var s := Format(t, [a]);
    var k := |t.parts[0]|;
    assert s[k..] == a + t.parts[1];
  }
}
