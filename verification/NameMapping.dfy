/**
 Camel and snake forms of names (j2rpc/functions.go, SnakeString and CamelString).
 Names are ASCII.
 */
module NameMapping {
  import opened Sequences

  predicate IsUpper(c: char) {
    'A' <= c <= 'Z'
  }

  predicate IsLower(c: char) {
    'a' <= c <= 'z'
  }

  function ToLower(c: char): char {
    if IsUpper(c) then (c as int + 32) as char else c
  }

  function ToUpper(c: char): char {
    if IsLower(c) then (c as int - 32) as char else c
  }

  function Lowered(s: string): string {
    seq(|s|, i requires 0 <= i < |s| => ToLower(s[i]))
  }

  // ---------- To snake ----------

  /** j: a character other than an underscore came since the last separator. */
  function SnakeFrom(s: string, j: bool): string {
    if s == "" then ""
    else if IsUpper(s[0]) then (if j then ['_'] else []) + [ToLower(s[0])] + SnakeFrom(s[1..], false)
    else [s[0]] + SnakeFrom(s[1..], j || s[0] != '_')
  }

  function Snake(s: string): string {
    SnakeFrom(s, false)
  }

  method SnakeString(s: string) returns (r: string)
    ensures r == Snake(s)
  {
    var data := "";
    var j := false;
    for i := 0 to |s|
      invariant Lowered(data) + SnakeFrom(s[i..], j) == Snake(s)
    {
      var d := s[i];
      SnakeStep(data, s, i, j);
      if IsUpper(d) {
        if j {
          data := data + ['_'];
          j := false;
        }
      } else if d != '_' {
        j := true;
      }
      data := data + [d];
    }
    return Lowered(data);
  }

  lemma SnakeStep(data: string, s: string, i: nat, j: bool)
    requires i < |s|
    ensures Lowered(data) + SnakeFrom(s[i..], j) ==
      Lowered((if IsUpper(s[i]) && j then data + ['_'] else data) + [s[i]])
      + SnakeFrom(s[i + 1..], !IsUpper(s[i]) && (j || s[i] != '_'))
  {
    var rest := SnakeFrom(s[i + 1..], !IsUpper(s[i]) && (j || s[i] != '_'));
    var emitted := (if IsUpper(s[i]) && j then ['_'] else []) + [ToLower(s[i])];
    assert s[i..][1..] == s[i + 1..];
    assert SnakeFrom(s[i..], j) == emitted + rest;
    assert Lowered((if IsUpper(s[i]) && j then data + ['_'] else data) + [s[i]]) == Lowered(data) + emitted;
    Associate(Lowered(data), emitted, rest);
  }

  predicate NoUpper(s: string) {
    forall i | 0 <= i < |s| :: !IsUpper(s[i])
  }

  lemma {:induction false} SnakeHasNoUpper(s: string, j: bool)
    ensures NoUpper(SnakeFrom(s, j))
  {
    if s != "" {
      SnakeHasNoUpper(s[1..], if IsUpper(s[0]) then false else j || s[0] != '_');
    }
  }

  lemma {:induction false} SnakeKeepsLower(s: string, j: bool)
    requires NoUpper(s)
    ensures SnakeFrom(s, j) == s
  {
    if s != "" {
      SnakeKeepsLower(s[1..], j || s[0] != '_');
    }
  }

  /** A snake name is its own snake name. */
  lemma SnakeIdempotent(s: string)
    ensures Snake(Snake(s)) == Snake(s)
  {
    SnakeHasNoUpper(s, false);
    SnakeKeepsLower(Snake(s), false);
  }

  /** At most one separator per two characters. */
  lemma {:induction false} SnakeLength(s: string, j: bool)
    ensures |s| <= |SnakeFrom(s, j)| && 2 * |SnakeFrom(s, j)| <= 3 * |s| + if j then 1 else 0
  {
    if s != "" {
      SnakeLength(s[1..], if IsUpper(s[0]) then false else j || s[0] != '_');
    }
  }

  // ---------- To camel ----------

  /** An underscore before a lower-case letter separates two words. */
  predicate Separates(s: string) {
    |s| > 1 && s[0] == '_' && IsLower(s[1])
  }

  /** j: a separator was just dropped. k: the first letter has been seen. */
  function CamelFrom(s: string, j: bool, k: bool): string {
    if s == "" then ""
    else
      var k1 := k || IsUpper(s[0]);
      var raise := IsLower(s[0]) && (j || !k1);
      if (k1 || raise) && Separates(s) then CamelFrom(s[1..], true, true)
      else [if raise then ToUpper(s[0]) else s[0]] + CamelFrom(s[1..], j && !raise, k1 || raise)
  }

  function Camel(s: string): string {
    CamelFrom(s, false, false)
  }

  method CamelString(s: string) returns (r: string)
    ensures r == Camel(s)
  {
    var data := "";
    var j, k := false, false;
    var num := |s| - 1;
    for i := 0 to |s|
      invariant data + CamelFrom(s[i..], j, k) == Camel(s)
    {
      CamelStep(data, s, i, j, k);
      var d := s[i];
      if !k && IsUpper(d) {
        k := true;
      }
      if IsLower(d) && (j || !k) {
        d := ToUpper(d);
        j := false;
        k := true;
      }
      if k && d == '_' && num > i && IsLower(s[i + 1]) {
        j := true;
        continue;
      }
      data := data + [d];
    }
    return data;
  }

  lemma CamelStep(data: string, s: string, i: nat, j: bool, k: bool)
    requires i < |s|
    ensures
      var k1 := k || IsUpper(s[i]);
      var raise := IsLower(s[i]) && (j || !k1);
      data + CamelFrom(s[i..], j, k) ==
        if (k1 || raise) && s[i] == '_' && i + 1 < |s| && IsLower(s[i + 1]) then data + CamelFrom(s[i + 1..], true, true)
        else data + [if raise then ToUpper(s[i]) else s[i]] + CamelFrom(s[i + 1..], j && !raise, k1 || raise)
  {
    var k1 := k || IsUpper(s[i]);
    var raise := IsLower(s[i]) && (j || !k1);
    assert s[i..][1..] == s[i + 1..];
    Associate(data, [if raise then ToUpper(s[i]) else s[i]], CamelFrom(s[i + 1..], j && !raise, k1 || raise));
  }

  // ---------- Camel after snake ----------

  /** No two upper-case letters in a row; first says whether one came before s. */
  predicate Spread(s: string, first: bool) {
    s == "" || (!(first && IsUpper(s[0])) && Spread(s[1..], IsUpper(s[0])))
  }

  /** Snake form and back, behind the first letter of the name. */
  function ThereAndBack(s: string, j: bool): string {
    CamelFrom(SnakeFrom(s, j), false, true)
  }

  lemma {:induction false} BackKeepsOthers(s: string, j: bool)
    requires '_' !in s
    ensures |ThereAndBack(s, j)| == |s|
    ensures ThereAndBack(s, j) == s <==> Spread(s, !j)
  {
    if s != "" {
      BackStep(s, j);
      BackKeepsOthers(s[1..], !IsUpper(s[0]));
      assert s == [s[0]] + s[1..];
    }
  }

  /** A capital survives behind a separator, and only there. */
  lemma BackStep(s: string, j: bool)
    requires s != "" && '_' !in s
    ensures ThereAndBack(s, j) == [if IsUpper(s[0]) && !j then ToLower(s[0]) else s[0]] + ThereAndBack(s[1..], !IsUpper(s[0]))
  {
    var c, rest, out := s[0], s[1..], SnakeFrom(s, j);
    if IsUpper(c) && j {
      var tail := [ToLower(c)] + SnakeFrom(rest, false);
      assert out == ['_'] + tail && out[1..] == tail && tail[1..] == SnakeFrom(rest, false);
      assert ToUpper(ToLower(c)) == c && Separates(out);
      assert CamelFrom(tail, true, true) == [c] + ThereAndBack(rest, false);
    } else {
      assert out[1..] == SnakeFrom(rest, !IsUpper(c));
    }
  }

  /** A Go name without underscores survives snake form and back exactly if no two capitals are adjacent. */
  lemma CamelOfSnakeIff(name: string)
    requires name != "" && IsUpper(name[0]) && '_' !in name
    ensures Camel(Snake(name)) == name <==> Spread(name, false)
  {
    var rest := name[1..];
    BackKeepsOthers(rest, false);
    var out := Snake(name);
    assert out == [ToLower(name[0])] + SnakeFrom(rest, false) && out[1..] == SnakeFrom(rest, false);
    assert Camel(out) == [name[0]] + ThereAndBack(rest, false);
    assert name == [name[0]] + rest;
  }

  // ---------- Snake after camel ----------

  /** Camel form and back, behind the first letter of the name. */
  function BackAndThere(s: string, j: bool): string {
    SnakeFrom(CamelFrom(s, false, true), j)
  }

  /**
   Before every separator stands a character of its word that is no underscore, behind the
   word's first letter. long says whether one came before s.
   */
  predicate LongWords(s: string, long: bool) {
    s == "" || (if Separates(s) then long && LongWords(s[2..], false) else LongWords(s[1..], long || s[0] != '_'))
  }

  lemma {:induction false} SeparatorsComeBack(s: string, j: bool)
    requires NoUpper(s)
    ensures |BackAndThere(s, j)| <= |s|
    ensures BackAndThere(s, j) == s <==> LongWords(s, j)
    decreases |s|
  {
    if s == "" {
    } else if Separates(s) {
      SeparatorStep(s, j);
      SeparatorsComeBack(s[2..], false);
      assert s == ['_', s[1]] + s[2..];
    } else {
      OtherStep(s, j);
      SeparatorsComeBack(s[1..], j || s[0] != '_');
      assert s == [s[0]] + s[1..];
    }
  }

  lemma SeparatorStep(s: string, j: bool)
    requires Separates(s)
    ensures BackAndThere(s, j) == (if j then ['_', s[1]] else [s[1]]) + BackAndThere(s[2..], false)
  {
    var rest := CamelFrom(s[2..], false, true);
    assert s[1..][1..] == s[2..];
    assert CamelFrom(s[1..], true, true) == [ToUpper(s[1])] + rest;
    assert ([ToUpper(s[1])] + rest)[1..] == rest && ToLower(ToUpper(s[1])) == s[1];
  }

  lemma OtherStep(s: string, j: bool)
    requires s != "" && !IsUpper(s[0]) && !Separates(s)
    ensures BackAndThere(s, j) == [s[0]] + BackAndThere(s[1..], j || s[0] != '_')
  {
    var rest := CamelFrom(s[1..], false, true);
    assert CamelFrom(s, false, true) == [s[0]] + rest && ([s[0]] + rest)[1..] == rest;
  }

  /** A lower-case name survives camel form and back exactly if its words before separators are long. */
  lemma SnakeOfCamelIff(name: string)
    requires name != "" && IsLower(name[0]) && NoUpper(name)
    ensures Snake(Camel(name)) == name <==> LongWords(name[1..], false)
  {
    var rest := CamelFrom(name[1..], false, true);
    SeparatorsComeBack(name[1..], false);
    assert Camel(name) == [ToUpper(name[0])] + rest && Camel(name)[1..] == rest;
    assert ToLower(ToUpper(name[0])) == name[0];
    assert name == [name[0]] + name[1..];
  }

  // ---------- Names made of words ----------

  /** A capital, followed by characters that are neither capitals nor underscores. */
  predicate IsWord(w: string) {
    w != "" && IsUpper(w[0]) && NoUpper(w[1..]) && '_' !in w
  }

  /** Words, of which only the last may be a single letter. */
  predicate AreWords(ws: seq<string>) {
    (forall i | 0 <= i < |ws| :: IsWord(ws[i])) && (forall i | 0 <= i < |ws| - 1 :: |ws[i]| >= 2)
  }

  function CamelName(ws: seq<string>): string {
    if ws == [] then "" else ws[0] + CamelName(ws[1..])
  }

  function SnakeName(ws: seq<string>): string {
    if ws == [] then "" else if |ws| == 1 then Lowered(ws[0]) else Lowered(ws[0]) + "_" + SnakeName(ws[1..])
  }

  lemma {:induction false} SnakeOfTail(t: string, rest: string, j: bool)
    requires NoUpper(t) && '_' !in t
    ensures SnakeFrom(t + rest, j) == Lowered(t) + SnakeFrom(rest, j || t != "")
  {
    if t == "" {
      assert t + rest == rest && Lowered(t) == "";
    } else {
      SnakeOfTail(t[1..], rest, true);
      assert (t + rest)[1..] == t[1..] + rest;
      assert Lowered(t) == [t[0]] + Lowered(t[1..]);
      Associate([t[0]], Lowered(t[1..]), SnakeFrom(rest, true));
    }
  }

  lemma SnakeOfWord(w: string, rest: string, j: bool)
    requires IsWord(w)
    ensures SnakeFrom(w + rest, j) == (if j then "_" else "") + (Lowered(w) + SnakeFrom(rest, |w| >= 2))
  {
    var tail := w[1..];
    SnakeOfTail(tail, rest, false);
    assert (w + rest)[1..] == tail + rest;
    assert Lowered(w) == [ToLower(w[0])] + Lowered(tail);
    Associate([ToLower(w[0])], Lowered(tail), SnakeFrom(rest, |w| >= 2));
    Associate(if j then "_" else "", [ToLower(w[0])], Lowered(tail) + SnakeFrom(rest, |w| >= 2));
  }

  lemma {:induction false} SnakeOfWords(ws: seq<string>, j: bool)
    requires AreWords(ws) && ws != []
    ensures SnakeFrom(CamelName(ws), j) == (if j then "_" else "") + SnakeName(ws)
  {
    SnakeOfWord(ws[0], CamelName(ws[1..]), j);
    if |ws| == 1 {
      assert ws[0] + CamelName(ws[1..]) == ws[0] + "";
      assert Lowered(ws[0]) + "" == Lowered(ws[0]);
    } else {
      SnakeOfWords(ws[1..], true);
      Associate(Lowered(ws[0]), "_", SnakeName(ws[1..]));
    }
  }

  lemma {:induction false} SpreadTail(t: string, rest: string, first: bool)
    requires NoUpper(t) && Spread(rest, first && t == "")
    ensures Spread(t + rest, first)
  {
    if t == "" {
      assert t + rest == rest;
    } else {
      assert (t + rest)[1..] == t[1..] + rest;
      SpreadTail(t[1..], rest, false);
    }
  }

  lemma {:induction false} WordsAreSpread(ws: seq<string>)
    requires AreWords(ws)
    ensures Spread(CamelName(ws), false) && '_' !in CamelName(ws)
  {
    if ws != [] {
      var tail, rest := ws[0][1..], CamelName(ws[1..]);
      WordsAreSpread(ws[1..]);
      if tail == "" {
        assert rest == "";
      }
      SpreadTail(tail, rest, true);
      assert CamelName(ws)[1..] == tail + rest;
    }
  }

  /** Both forms of a name made of words are what one expects, and each is got back from the other. */
  lemma WordsRoundTrip(ws: seq<string>)
    requires AreWords(ws) && ws != []
    ensures Snake(CamelName(ws)) == SnakeName(ws) && Camel(SnakeName(ws)) == CamelName(ws)
  {
    SnakeOfWords(ws, false);
    assert "" + SnakeName(ws) == SnakeName(ws);
    WordsAreSpread(ws);
    CamelOfSnakeIff(CamelName(ws));
  }
}
