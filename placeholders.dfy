/**
 * The two string patterns the built-in argument handlers of the service manager
 * recognise (src/ServiceManager.php:135-161):
 *   - a parameter placeholder `%name%`, matched lazily, either as the whole value or
 *     anywhere inside a longer string;
 *   - a service reference `$name`, an identifier after a dollar sign, as the whole value.
 * The PCRE details kept here: `.` does not match a newline, `$` matches at the very end
 * or just before a final newline, `.*?` takes the shortest name, and the `i` flag makes
 * `[a-z]` accept upper-case letters too.
 */
module Placeholders {
  import opened Base

  /** One piece of a string after the `%…%` placeholders in it have been found. */
  datatype Segment = Lit(c: char) | Placeholder(name: string)

  /**
   * Where a lazily matched `%(.*?)%` closes, given the text after the opening '%':
   * the first '%' in t, provided no newline comes before it.
   */
  function ClosingPercent(t: string): (k: Option<nat>)
    ensures k.Some? ==> k.value < |t| && t[k.value] == '%'
    ensures k.Some? ==> forall j :: 0 <= j < k.value ==> t[j] != '%' && t[j] != '\n'
    ensures k.None? ==> forall j :: 0 <= j < |t| && t[j] == '%' ==> '\n' in t[..j]
    decreases |t|
  {
    if t == [] then None
    else if t[0] == '%' then Some(0)
    else if t[0] == '\n' then None
    else
      match ClosingPercent(t[1..])
      case Some(k) => Some(k + 1)
      case None =>
        forall j | 0 <= j < |t| && t[j] == '%'
          ensures '\n' in t[..j]
        {
          assert j >= 1 && t[1..][j - 1] == '%';
          var i :| 0 <= i < j - 1 && t[1..][..j - 1][i] == '\n';
          assert t[..j][i + 1] == '\n';
        }
        None
  }

  /**
   * The matches preg_replace_callback finds for `/%(.*?)%/`, scanning left to right
   * and resuming after each match; the text between matches stays literal.
   */
  function Scan(s: string): (segs: seq<Segment>)
    ensures forall i :: 0 <= i < |segs| && segs[i].Placeholder? ==> PlainName(segs[i].name)
    decreases |s|
  {
    if s == [] then []
    else if s[0] == '%' then
      match ClosingPercent(s[1..])
      case Some(k) =>
        var name := s[1..k + 1];
        assert forall j :: 0 <= j < |name| ==> name[j] == s[1..][j];
        [Placeholder(name)] + Scan(s[k + 2..])
      case None => [Lit('%')] + Scan(s[1..])
    else [Lit(s[0])] + Scan(s[1..])
  }

  /** Writes a segment back as text. */
  function Text(seg: Segment): string {
    match seg
    case Lit(c) => [c]
    case Placeholder(name) => "%" + name + "%"
  }

  /** Writes scanned segments back as text. */
  function Render(segs: seq<Segment>): string {
    if segs == [] then [] else Text(segs[0]) + Render(segs[1..])
  }

  /** Rendering a segment in front of others. */
  lemma RenderCons(seg: Segment, rest: seq<Segment>)
    ensures Render([seg] + rest) == Text(seg) + Render(rest)
  {
    assert ([seg] + rest)[0] == seg && ([seg] + rest)[1..] == rest;
  }

  /** A string cut around a placeholder whose closing '%' sits at k + 1. */
  lemma PlaceholderSplit(s: string, k: nat)
    requires k + 2 <= |s| && s[0] == '%' && s[k + 1] == '%'
    ensures s == "%" + s[1..k + 1] + "%" + s[k + 2..]
  {
  }

  /** Scanning loses nothing: writing the segments back gives the original string. */
  lemma {:induction false} RenderScan(s: string)
    ensures Render(Scan(s)) == s
    decreases |s|
  {
    if s == [] {
    } else if s[0] == '%' && ClosingPercent(s[1..]).Some? {
      var k := ClosingPercent(s[1..]).value;
      var rest := s[k + 2..];
      RenderScan(rest);
      calc {
        Render(Scan(s));
        Render([Placeholder(s[1..k + 1])] + Scan(rest));
        { RenderCons(Placeholder(s[1..k + 1]), Scan(rest)); }
        "%" + s[1..k + 1] + "%" + rest;
        { PlaceholderSplit(s, k); }
        s;
      }
    } else {
      RenderScan(s[1..]);
      calc {
        Render(Scan(s));
        Render([Lit(s[0])] + Scan(s[1..]));
        { RenderCons(Lit(s[0]), Scan(s[1..])); }
        [s[0]] + s[1..];
        s;
      }
    }
  }

  /** A placeholder name found by the scan contains neither '%' nor a newline. */
  predicate PlainName(name: string) {
    '%' !in name && '\n' !in name
  }

  /** A string without '%' holds no placeholder: the handler leaves it as it is. */
  lemma {:induction false} NoPercentNoPlaceholder(s: string)
    requires '%' !in s
    ensures forall i :: 0 <= i < |Scan(s)| ==> Scan(s)[i].Lit?
    decreases |s|
  {
    if s != [] {
      assert s[0] != '%';
      assert '%' !in s[1..] by { assert forall j :: 0 <= j < |s[1..]| ==> s[1..][j] == s[j + 1]; }
      NoPercentNoPlaceholder(s[1..]);
      assert Scan(s) == [Lit(s[0])] + Scan(s[1..]);
    }
  }

  /**
   * `/^%(.*?)%$/`: the whole value is one placeholder, optionally followed by a single
   * final newline; the captured name may itself contain '%' but no newline.
   */
  function WholePlaceholder(s: string): (name: Option<string>)
    ensures name.Some? ==> '\n' !in name.value
    ensures name.Some? ==> s == "%" + name.value + "%" || s == "%" + name.value + "%\n"
  {
    if |s| >= 2 && s[0] == '%' && s[|s| - 1] == '%' && '\n' !in s[1..|s| - 1] then
      Some(s[1..|s| - 1])
    else if |s| >= 3 && s[0] == '%' && s[|s| - 2] == '%' && s[|s| - 1] == '\n'
            && '\n' !in s[1..|s| - 2] then
      Some(s[1..|s| - 2])
    else
      None
  }

  /** Every string of the accepted shape is recognised, with exactly that name. */
  lemma WholePlaceholderComplete(name: string, newline: bool)
    requires '\n' !in name
    ensures WholePlaceholder("%" + name + "%" + (if newline then "\n" else "")) == Some(name)
  {
    var s := "%" + name + "%" + (if newline then "\n" else "");
    if newline {
      assert s[1..|s| - 2] == name;
      assert s[|s| - 1] == '\n';
    } else {
      assert s[1..|s| - 1] == name;
    }
  }

  /** The lazy group is forced to the end by the anchor: "%a%b%" names the parameter "a%b". */
  lemma WholePlaceholderSpansInnerPercent()
    ensures WholePlaceholder("%a%b%") == Some("a%b")
    ensures Scan("%a%b%") == [Placeholder("a"), Lit('b'), Lit('%')]
  {
    var s := "%a%b%";
    assert |s| == 5 && s[0] == '%' && s[1] == 'a' && s[2] == '%' && s[3] == 'b' && s[4] == '%';
    var inner := s[1..4];
    assert |inner| == 3 && inner[0] == 'a' && inner[1] == '%' && inner[2] == 'b';
    assert inner == "a%b";
    assert '\n' !in inner;
    var t := s[1..];
    assert t == "a%b%" && t[1..] == "%b%";
    assert ClosingPercent(t) == Some(1);
    assert s[1..2] == "a" && s[3..] == "b%";
    assert Scan(s) == [Placeholder("a")] + Scan("b%");
    assert "b%"[1..] == "%" && "%"[1..] == "";
    assert ClosingPercent("") == None;
    assert Scan("%") == [Lit('%')] + Scan("");
    assert Scan("b%") == [Lit('b')] + Scan("%");
  }

  predicate IsIdentStart(c: char) {
    'a' <= c <= 'z' || 'A' <= c <= 'Z' || c == '_'
  }

  predicate IsIdentChar(c: char) {
    IsIdentStart(c) || '0' <= c <= '9'
  }

  /** `[a-z_][a-z_0-9]*` under the case-insensitive flag. */
  predicate IsIdentifier(n: string) {
    |n| > 0 && IsIdentStart(n[0]) && forall i :: 0 < i < |n| ==> IsIdentChar(n[i])
  }

  /** `/^\$([a-z_][a-z_0-9]*)$/i`: the whole value names a service. */
  function ServiceReference(s: string): (name: Option<string>)
    ensures name.Some? ==> IsIdentifier(name.value)
    ensures name.Some? ==> s == "$" + name.value || s == "$" + name.value + "\n"
  {
    if |s| >= 1 && s[0] == '$' then
      var body := if |s| >= 2 && s[|s| - 1] == '\n' then s[1..|s| - 1] else s[1..];
      if IsIdentifier(body) then Some(body) else None
    else
      None
  }

  /** Every dollar-prefixed identifier is recognised as a reference to that name. */
  lemma ServiceReferenceComplete(name: string, newline: bool)
    requires IsIdentifier(name)
    ensures ServiceReference("$" + name + (if newline then "\n" else "")) == Some(name)
  {
    var s := "$" + name + (if newline then "\n" else "");
    if newline {
      assert s[1..|s| - 1] == name;
    } else {
      assert s[1..] == name;
      assert s[|s| - 1] == name[|name| - 1];
    }
  }
}
