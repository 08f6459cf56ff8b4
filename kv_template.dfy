/**
 * `${key}` templates: each placeholder is replaced by the value its key maps
 * to, or by nothing when the key is absent. A placeholder is `${`, a key with
 * no `}` and no newline, and the first `}` after it; placeholders are found
 * left to right without overlap, and substituted text is never scanned again.
 */
module Template {
  import opened Wrappers
  import opened SeqFacts

  /** A template keeps its text as given; rendering never changes it. */
  datatype KvTemplate = KvTemplate(template: string) {
    /** The template with every placeholder replaced; the lemmas below state what that means. */
    function Render(values: map<string, string>): (r: string)
      ensures NoPlaceholder(template) ==> r == template
    {
      RenderPlain(template, values);
      Substitute(template, values)
    }
  }

  /** Builds a template that holds `template` verbatim. */
  function NewKvTemplate(template: string): (t: KvTemplate)
    ensures t.template == template
  {
    KvTemplate(template)
  }

  /** What a key may contain: the lazy `.*?` stops at the first `}` and never crosses a newline. */
  predicate IsKey(k: string) {
    '}' !in k && '\n' !in k
  }

  /** A missing key reads as the empty string, as a Go map lookup does. */
  function Lookup(values: map<string, string>, key: string): (r: string)
    ensures key in values ==> r == values[key]
    ensures key !in values ==> r == ""
  {
    if key in values then values[key] else ""
  }

  /** A placeholder with an `n`-character key starts at position `i` of `tpl`. */
  predicate PlaceholderAt(tpl: string, i: nat, n: nat) {
    && i + n + 3 <= |tpl|
    && tpl[i] == '$' && tpl[i + 1] == '{' && tpl[i + 2 + n] == '}'
    && IsKey(tpl[i + 2 .. i + 2 + n])
  }

  /** `tpl` holds no placeholder anywhere. */
  predicate NoPlaceholder(tpl: string) {
    forall i: nat, n: nat | i < |tpl| && n < |tpl| :: !PlaceholderAt(tpl, i, n)
  }

  /** Text that renders as itself whatever follows it: no `${` in it, and it does not end in `$`. */
  predicate Plain(p: string) {
    forall i :: 0 <= i < |p| && p[i] == '$' ==> i + 1 < |p| && p[i + 1] != '{'
  }

  /** Where the key after a `${` ends: at the first `}`, provided no newline comes first. */
  function KeyEnd(s: string): (r: Option<nat>)
    ensures r.Some? ==> r.value < |s| && s[r.value] == '}' && IsKey(s[..r.value])
    ensures r.None? ==> forall j :: 0 <= j < |s| && s[j] == '}' ==> !IsKey(s[..j])
  {
    if s == [] then None
    else if s[0] == '}' then Some(0)
    else if s[0] == '\n' then
      assert forall j :: 0 < j <= |s| ==> s[..j][0] == '\n';
      None
    else
      match KeyEnd(s[1..])
      case None =>
        assert forall j :: 0 < j <= |s| ==> s[..j] == [s[0]] + s[1..][..j - 1];
        None
      case Some(j) =>
        assert s[..j + 1] == [s[0]] + s[1..][..j];
        Some(j + 1)
  }

  /** The regular-expression replacement, scanning from the left. */
  function Substitute(tpl: string, values: map<string, string>): string
    decreases |tpl|
  {
    if tpl == [] then []
    else if |tpl| >= 2 && tpl[0] == '$' && tpl[1] == '{' && KeyEnd(tpl[2..]).Some? then
      var n := KeyEnd(tpl[2..]).value;
      Lookup(values, tpl[2 .. 2 + n]) + Substitute(tpl[2 + n + 1..], values)
    else
      [tpl[0]] + Substitute(tpl[1..], values)
  }

  /** The keys a rendering looks up, each a valid key. */
  function Keys(tpl: string): (ks: set<string>)
    ensures forall k :: k in ks ==> IsKey(k)
    decreases |tpl|
  {
    if tpl == [] then {}
    else if |tpl| >= 2 && tpl[0] == '$' && tpl[1] == '{' && KeyEnd(tpl[2..]).Some? then
      var n := KeyEnd(tpl[2..]).value;
      {tpl[2 .. 2 + n]} + Keys(tpl[2 + n + 1..])
    else
      Keys(tpl[1..])
  }

  /** A placeholder whose key is a valid key is found at the front. */
  lemma {:induction false} KeyEndOf(k: string, rest: string)
    requires IsKey(k)
    ensures KeyEnd(k + "}" + rest) == Some(|k|)
    decreases |k|
  {
    var s := k + "}" + rest;
    if k == [] {
      assert s[0] == '}';
    } else {
      assert s[0] == k[0] && s[1..] == k[1..] + "}" + rest;
      assert k[0] != '}' && k[0] != '\n';
      KeyEndOf(k[1..], rest);
    }
  }

  /** A placeholder is replaced by its key's value and the scan resumes after it. */
  lemma PlaceholderStep(k: string, rest: string, values: map<string, string>)
    requires IsKey(k)
    ensures Substitute("${" + k + "}" + rest, values) == Lookup(values, k) + Substitute(rest, values)
  {
    var tpl := "${" + k + "}" + rest;
    assert tpl[2..] == k + "}" + rest;
    KeyEndOf(k, rest);
    assert tpl[2 .. 2 + |k|] == k && tpl[2 + |k| + 1..] == rest;
  }

  /** What follows the first character of plain text is plain. */
  lemma PlainTail(p: string)
    requires p != [] && Plain(p)
    ensures Plain(p[1..])
  {
    forall i | 0 <= i < |p[1..]| && p[1..][i] == '$'
      ensures i + 1 < |p[1..]| && p[1..][i + 1] != '{'
    {
      assert p[i + 1] == '$';
    }
  }

  /** A character that does not open a `${` is copied, and the scan moves one character on. */
  lemma CopyStep(tpl: string, values: map<string, string>)
    requires tpl != [] && !(|tpl| >= 2 && tpl[0] == '$' && tpl[1] == '{')
    ensures Substitute(tpl, values) == [tpl[0]] + Substitute(tpl[1..], values)
  {
  }

  /** Plain text is copied unchanged, and rendering goes on after it. */
  lemma {:induction false} PlainStep(p: string, rest: string, values: map<string, string>)
    requires Plain(p)
    ensures Substitute(p + rest, values) == p + Substitute(rest, values)
    decreases |p|
  {
    if p == [] {
      assert p + rest == rest;
    } else {
      var tpl := p + rest;
      assert tpl[0] == p[0];
      if p[0] == '$' {
        assert tpl[1] == p[1];
      }
      CopyStep(tpl, values);
      assert tpl[1..] == p[1..] + rest;
      PlainTail(p);
      PlainStep(p[1..], rest, values);
      AppendAssoc([p[0]], p[1..], Substitute(rest, values));
      assert [p[0]] + p[1..] == p;
    }
  }

  /** A `${` whose key is never closed, or is cut by a newline, is copied as text. */
  lemma UnterminatedStep(rest: string, values: map<string, string>)
    requires forall j :: 0 <= j < |rest| && rest[j] == '}' ==> !IsKey(rest[..j])
    ensures Substitute("${" + rest, values) == "${" + Substitute(rest, values)
  {
    var tpl := "${" + rest;
    assert tpl[2..] == rest;
    assert KeyEnd(rest).None?;
    assert tpl[1..] == "{" + rest && ("{" + rest)[1..] == rest;
    CopyStep("{" + rest, values);
    AppendAssoc("$", "{", Substitute(rest, values));
  }

  /** A placeholder of the text after its first character is a placeholder of the whole text, one position later. */
  lemma PlaceholderShift(tpl: string, i: nat, n: nat)
    requires tpl != [] && PlaceholderAt(tpl[1..], i, n)
    ensures PlaceholderAt(tpl, i + 1, n)
  {
    assert tpl[1..][i + 2 .. i + 2 + n] == tpl[i + 3 .. i + 3 + n];
  }

  /** A placeholder past the first character is a placeholder of the rest of the text, one position earlier. */
  lemma PlaceholderUnshift(tpl: string, i: nat, n: nat)
    requires 0 < i && PlaceholderAt(tpl, i, n)
    ensures PlaceholderAt(tpl[1..], i - 1, n)
  {
    assert tpl[1..][i + 1 .. i + 1 + n] == tpl[i + 2 .. i + 2 + n];
  }

  /** A template with no placeholder renders as itself. */
  lemma {:induction false} RenderPlain(tpl: string, values: map<string, string>)
    ensures NoPlaceholder(tpl) ==> Substitute(tpl, values) == tpl
    decreases |tpl|
  {
    if tpl != [] && NoPlaceholder(tpl) {
      if |tpl| >= 2 && tpl[0] == '$' && tpl[1] == '{' && KeyEnd(tpl[2..]).Some? {
        var n := KeyEnd(tpl[2..]).value;
        assert tpl[2..][..n] == tpl[2 .. 2 + n];
        assert PlaceholderAt(tpl, 0, n);
        assert false;
      }
      assert NoPlaceholder(tpl[1..]) by {
        forall i: nat, n: nat ensures !PlaceholderAt(tpl[1..], i, n) {
          if PlaceholderAt(tpl[1..], i, n) {
            PlaceholderShift(tpl, i, n);
          }
        }
      }
      RenderPlain(tpl[1..], values);
    }
  }

  /** Rendering with no values never lengthens a template. */
  lemma {:induction false} RenderEmptyNoLonger(tpl: string)
    ensures |Substitute(tpl, map[])| <= |tpl|
    decreases |tpl|
  {
    if tpl != [] {
      if |tpl| >= 2 && tpl[0] == '$' && tpl[1] == '{' && KeyEnd(tpl[2..]).Some? {
        var n := KeyEnd(tpl[2..]).value;
        RenderEmptyNoLonger(tpl[2 + n + 1..]);
      } else {
        RenderEmptyNoLonger(tpl[1..]);
      }
    }
  }

  /** A placeholder at the front of a template is the one the scan takes. */
  lemma PlaceholderFront(tpl: string, n: nat)
    requires PlaceholderAt(tpl, 0, n)
    ensures KeyEnd(tpl[2..]) == Some(n)
  {
    assert tpl[2..] == tpl[2 .. 2 + n] + "}" + tpl[2 + n + 1..];
    KeyEndOf(tpl[2 .. 2 + n], tpl[2 + n + 1..]);
  }

  /** Rendering with no values shortens every template that holds a placeholder. */
  lemma {:induction false} RenderEmptyShorter(tpl: string, i: nat, n: nat)
    requires PlaceholderAt(tpl, i, n)
    ensures |Substitute(tpl, map[])| < |tpl|
    decreases |tpl|
  {
    if i == 0 {
      PlaceholderFront(tpl, n);
      RenderEmptyNoLonger(tpl[2 + n + 1..]);
    } else if |tpl| >= 2 && tpl[0] == '$' && tpl[1] == '{' && KeyEnd(tpl[2..]).Some? {
      var m := KeyEnd(tpl[2..]).value;
      RenderEmptyNoLonger(tpl[2 + m + 1..]);
    } else {
      PlaceholderUnshift(tpl, i, n);
      RenderEmptyShorter(tpl[1..], i - 1, n);
    }
  }

  /** A template renders as itself with no values exactly when it holds no placeholder. */
  lemma RenderEmptyIdentity(tpl: string)
    ensures Substitute(tpl, map[]) == tpl <==> NoPlaceholder(tpl)
  {
    if NoPlaceholder(tpl) {
      RenderPlain(tpl, map[]);
    } else {
      var i: nat, n: nat :| PlaceholderAt(tpl, i, n);
      RenderEmptyShorter(tpl, i, n);
    }
  }

  /** Only the keys a template mentions matter: values that agree on them render alike. */
  lemma {:induction false} RenderDependsOnlyOnKeys(tpl: string, v1: map<string, string>, v2: map<string, string>)
    requires forall k :: k in Keys(tpl) ==> Lookup(v1, k) == Lookup(v2, k)
    ensures Substitute(tpl, v1) == Substitute(tpl, v2)
    decreases |tpl|
  {
    if tpl != [] {
      if |tpl| >= 2 && tpl[0] == '$' && tpl[1] == '{' && KeyEnd(tpl[2..]).Some? {
        var n := KeyEnd(tpl[2..]).value;
        RenderDependsOnlyOnKeys(tpl[2 + n + 1..], v1, v2);
      } else {
        RenderDependsOnlyOnKeys(tpl[1..], v1, v2);
      }
    }
  }

  /** A template read as a run of plain text and placeholders. */
  datatype Segment = Text(text: string) | Hole(key: string)

  /** The template text the segments spell. */
  function Source(segs: seq<Segment>): string {
    if segs == [] then []
    else
      match segs[0]
      case Text(p) => p + Source(segs[1..])
      case Hole(k) => "${" + k + "}" + Source(segs[1..])
  }

  /** The intended rendering: text kept, each placeholder replaced by its value. */
  function Fill(segs: seq<Segment>, values: map<string, string>): string {
    if segs == [] then []
    else
      match segs[0]
      case Text(p) => p + Fill(segs[1..], values)
      case Hole(k) => Lookup(values, k) + Fill(segs[1..], values)
  }

  /** Every text segment is plain and every key is a valid key. */
  predicate WellFormed(segs: seq<Segment>) {
    forall i :: 0 <= i < |segs| ==>
      match segs[i]
      case Text(p) => Plain(p)
      case Hole(k) => IsKey(k)
  }

  /**
   * Rendering the text of well-formed segments fills each placeholder once, in order.
   * Two kinds of template have no well-formed segments: a `$` right before a
   * placeholder (`$${k}`, covered step by step by `CopyStep` and `PlaceholderStep`),
   * and a `${` that nothing closes (covered by `UnterminatedStep`).
   */
  lemma {:induction false} RenderSegments(segs: seq<Segment>, values: map<string, string>)
    requires WellFormed(segs)
    ensures Substitute(Source(segs), values) == Fill(segs, values)
    decreases |segs|
  {
    if segs != [] {
      assert WellFormed(segs[1..]) by {
        forall i | 0 <= i < |segs[1..]| ensures segs[1..][i] == segs[i + 1] {}
      }
      RenderSegments(segs[1..], values);
      match segs[0]
      case Text(p) =>
        assert Plain(p) by { assert segs[0] == Text(p); }
        PlainStep(p, Source(segs[1..]), values);
      case Hole(k) =>
        PlaceholderStep(k, Source(segs[1..]), values);
    }
  }

  /** Two placeholders with text between them, `${a}-${b}`, are each replaced by their own value. */
  lemma RenderTwoPlaceholders(a: string, b: string, x: string, y: string)
    requires IsKey(a) && IsKey(b) && a != b
    ensures Substitute("${" + a + "}" + ("-" + ("${" + b + "}")), map[a := x, b := y]) == x + ("-" + y)
  {
    var values := map[a := x, b := y];
    var second := "${" + b + "}";
    PlaceholderStep(a, "-" + second, values);
    PlainStep("-", second, values);
    assert second + "" == second;
    PlaceholderStep(b, "", values);
    assert Substitute("", values) == [];
    assert Lookup(values, a) == x && Lookup(values, b) + [] == y;
  }

  /** A key that is absent renders as nothing. */
  lemma RenderAbsentKey(k: string, rest: string, values: map<string, string>)
    requires IsKey(k) && k !in values
    ensures NewKvTemplate("${" + k + "}" + rest).Render(values) == NewKvTemplate(rest).Render(values)
  {
    PlaceholderStep(k, rest, values);
  }

  /** The key ends at the first `}`: in `${a}b}` the second `}` is plain text. */
  lemma RenderFirstBrace()
    ensures NewKvTemplate("${a}b}").Render(map["a" := "x"]) == "xb}"
  {
    var values := map["a" := "x"];
    assert "${a}b}" == "${" + "a" + "}" + "b}";
    PlaceholderStep("a", "b}", values);
    PlainStep("b}", "", values);
    assert "b}" + "" == "b}";
  }

  /** A newline ends the search for the `}`: `${a` newline `}` is copied unchanged. */
  lemma RenderNewlineBlocks()
    ensures NewKvTemplate("${a\n}").Render(map["a\n" := "x"]) == "${a\n}"
  {
    var values := map["a\n" := "x"];
    assert "${a\n}" == "${" + "a\n}";
    assert "a\n}"[..2][1] == '\n';
    UnterminatedStep("a\n}", values);
    PlainStep("a\n}", "", values);
    assert "a\n}" + "" == "a\n}";
  }

  /** A value that looks like a placeholder is not replaced again. */
  lemma RenderNoRescan()
    ensures NewKvTemplate("${a}").Render(map["a" := "${a}"]) == "${a}"
  {
    var values := map["a" := "${a}"];
    assert "${a}" == "${" + "a" + "}" + "";
    PlaceholderStep("a", "", values);
  }
}
