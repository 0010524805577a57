/** What the JSON decoder guarantees about the raw text of a value: the
    separator of the hash input and the backslash occur inside string literals
    only, and every literal is closed. That is enough to find the value's
    beginning again in a longer text. */
module JsonText {

  /** Where a scan stands: between literals, in one, or behind its backslash. */
  datatype Mode = Outside | Inside | Escaped

  predicate ShapedFrom(mode: Mode, s: string)
    decreases |s|
  {
    if s == [] then mode == Outside
    else
      match mode
      case Outside => s[0] != '|' && s[0] != '\\' && ShapedFrom(if s[0] == '"' then Inside else Outside, s[1..])
      case Inside => ShapedFrom(if s[0] == '"' then Outside else if s[0] == '\\' then Escaped else Inside, s[1..])
      case Escaped => ShapedFrom(Inside, s[1..])
  }

  /** The raw text of a decoded value, empty for an absent field. */
  type RawJson = s: string | ShapedFrom(Outside, s) witness "{}"

  /** A scan that began in one literal state cannot end well if the same text
      also scans well from the opposite state. */
  lemma {:induction false} OneBeginning(s: string)
    ensures !(ShapedFrom(Inside, s) && ShapedFrom(Outside, s))
  {
    if s != [] {
      OneBeginning(s[1..]);
    }
  }

  /** Behind a separator a shaped text is inside a literal. */
  lemma {:induction false} InsideAfterPipe(mode: Mode, a: string, t: string)
    requires ShapedFrom(mode, a + "|" + t)
    ensures ShapedFrom(Inside, t)
    decreases |a|
  {
    var s := a + "|" + t;
    if a == [] {
      assert s[1..] == t;
    } else {
      assert s[1..] == a[1..] + "|" + t;
      var next :| ShapedFrom(next, s[1..]);
      InsideAfterPipe(next, a[1..], t);
    }
  }

  /** What follows a separator in a raw value is no raw value. */
  lemma NoTailIsRaw(a: string, t: string)
    requires ShapedFrom(Outside, a + "|" + t)
    ensures !ShapedFrom(Outside, t)
  {
    InsideAfterPipe(Outside, a, t);
    OneBeginning(t);
  }

  /** Two raw values that end the same text, each behind a separator, are equal. */
  lemma SameEnding(x: string, u: RawJson, y: string, v: RawJson)
    requires x + "|" + u == y + "|" + v
    ensures x == y && u == v
  {
    var s := x + "|" + u;
    if |u| < |v| {
      EndsInside(y, v, s, |x|);
    } else if |v| < |u| {
      EndsInside(x, u, s, |y|);
    } else {
      assert u == s[|x| + 1..] && v == s[|x| + 1..];
      assert x == s[..|x|] && y == s[..|x|];
    }
  }

  lemma EndsInside(y: string, v: RawJson, s: string, k: nat)
    requires s == y + "|" + v && |y| < k < |s| && s[k] == '|'
    ensures !ShapedFrom(Outside, s[k + 1..])
  {
    var a := v[..k - |y| - 1];
    assert v == a + "|" + s[k + 1..];
    NoTailIsRaw(a, s[k + 1..]);
  }

  /** A separator may stand inside a string. */
  lemma InsideIsRaw()
    ensures ShapedFrom(Outside, "{\"|\"}")
  {
    assert ShapedFrom(Inside, "|\"}");
    assert "{\"|\"}"[1..] == "\"|\"}" && "\"|\"}"[1..] == "|\"}";
  }

  /** An escaped quote does not end its string. */
  lemma EscapedIsRaw()
    ensures ShapedFrom(Outside, "\"\\\"\"")
  {
    assert ShapedFrom(Inside, "\\\"\"");
    assert "\"\\\"\""[1..] == "\\\"\"";
  }

  /** A separator outside every string, or a string left open, is no raw value. */
  lemma OpenIsNot()
    ensures !ShapedFrom(Outside, "7|") && !ShapedFrom(Outside, "\"7")
  {
    assert "7|"[1..] == "|" && "\"7"[1..] == "7" && "7"[1..] == "";
  }
}
