/** `String.split("\\|")` as Java evaluates it with the default limit of 0:
    the string is cut at every `|`, trailing empty strings are dropped, and a
    string without any `|` comes back as itself (so `""` gives `[""]`). */
module JavaStrings {

  const Bar: char := '|'

  /** Cuts `s` at every `|`, keeping empty pieces: one more piece than bars. */
  function Fields(s: string): (r: seq<string>)
    ensures |r| >= 1
    ensures forall i :: 0 <= i < |r| ==> Bar !in r[i]
  {
    if |s| == 0 then [""]
    else
      var rest := Fields(s[1..]);
      if s[0] == Bar then [""] + rest
      else [[s[0]] + rest[0]] + rest[1..]
  }

  /** Glues pieces back together with `|` between them. */
  function Join(fs: seq<string>): string
    requires |fs| >= 1
  {
    if |fs| == 1 then fs[0] else fs[0] + [Bar] + Join(fs[1..])
  }

  /** The longest prefix of `fs` whose last element is not empty. */
  function DropTrailingEmpty(fs: seq<string>): (r: seq<string>)
    ensures |r| <= |fs| && r == fs[..|r|]
    ensures forall i :: |r| <= i < |fs| ==> fs[i] == ""
    ensures |r| == 0 || r[|r| - 1] != ""
  {
    if |fs| == 0 then []
    else if fs[|fs| - 1] == "" then DropTrailingEmpty(fs[..|fs| - 1])
    else fs
  }

  /** `s.split("\\|")`. */
  function Split(s: string): (r: seq<string>)
    ensures forall i :: 0 <= i < |r| ==> Bar !in r[i]
  {
    if Bar !in s then [s] else DropTrailingEmpty(Fields(s))
  }

  /** `k` bar characters. */
  function Bars(k: nat): string
  {
    if k == 0 then "" else [Bar] + Bars(k - 1)
  }

  /** `k` empty strings. */
  function Empties(k: nat): seq<string>
  {
    seq(k, _ => "")
  }

  /** Joining the pieces gives back the string that was cut. */
  lemma {:induction false} JoinFields(s: string)
    ensures Join(Fields(s)) == s
  {
    if |s| > 0 {
      var rest := Fields(s[1..]);
      JoinFields(s[1..]);
      if s[0] != Bar && |rest| > 1 {
        assert Join(rest) == rest[0] + [Bar] + Join(rest[1..]);
        assert Fields(s)[1..] == rest[1..];
      }
    }
  }

  /** A bar-free piece followed by a bar is one field of its own. */
  lemma {:induction false} FieldsAfterPiece(a: string, t: string)
    requires Bar !in a
    ensures Fields(a + [Bar] + t) == [a] + Fields(t)
  {
    if |a| > 0 {
      var s := a + [Bar] + t;
      assert s[0] == a[0] && s[0] != Bar;
      assert s[1..] == a[1..] + [Bar] + t;
      FieldsAfterPiece(a[1..], t);
      assert [a[0]] + a[1..] == a;
    } else {
      assert (a + [Bar] + t)[1..] == t;
    }
  }

  lemma {:induction false} FieldsOfPiece(a: string)
    requires Bar !in a
    ensures Fields(a) == [a]
  {
    if |a| > 0 {
      FieldsOfPiece(a[1..]);
      assert [a[0]] + a[1..] == a;
    }
  }

  /** Cutting pieces that contain no bar after gluing them returns the pieces. */
  lemma {:induction false} FieldsJoin(fs: seq<string>)
    requires |fs| >= 1
    requires forall i :: 0 <= i < |fs| ==> Bar !in fs[i]
    ensures Fields(Join(fs)) == fs
  {
    if |fs| == 1 {
      FieldsOfPiece(fs[0]);
    } else {
      FieldsJoin(fs[1..]);
      FieldsAfterPiece(fs[0], Join(fs[1..]));
    }
  }

  lemma {:induction false} JoinTrailing(b: string, k: nat)
    ensures Join([b] + Empties(k)) == b + Bars(k)
    decreases k
  {
    if k > 0 {
      JoinTrailing("", k - 1);
      assert ([b] + Empties(k))[1..] == [""] + Empties(k - 1);
    }
  }

  /** A line splits into exactly two tokens `a` and `b` only when it is
      `a|b` followed by some bars, with `b` not empty. */
  lemma TwoTokensShape(s: string)
    requires |Split(s)| == 2
    ensures var r := Split(s);
      exists k: nat :: r[1] != "" && s == r[0] + [Bar] + r[1] + Bars(k)
  {
    var r := Split(s);
    var fs := Fields(s);
    var k := |fs| - 2;
    assert fs == [r[0], r[1]] + Empties(k);
    JoinFields(s);
    JoinTrailing(r[1], k);
    assert s == Join(fs) == r[0] + [Bar] + Join([r[1]] + Empties(k));
  }

  /** Conversely, every `a|b` followed by bars, with bar-free `a` and `b` and
      `b` not empty, splits into exactly `[a, b]`. */
  lemma TwoTokensOf(a: string, b: string, k: nat)
    requires Bar !in a && Bar !in b && b != ""
    ensures Split(a + [Bar] + b + Bars(k)) == [a, b]
  {
    var s := a + [Bar] + b + Bars(k);
    var fs := [a, b] + Empties(k);
    forall i | 0 <= i < |fs| ensures Bar !in fs[i] {
      if i >= 2 { assert fs[i] == ""; }
    }
    JoinTrailing(b, k);
    assert Join(fs) == a + [Bar] + Join([b] + Empties(k));
    assert Join(fs) == s;
    FieldsJoin(fs);
    assert s[|a|] == Bar;
    var r := DropTrailingEmpty(fs);
    assert fs[1] == b;
  }
}
