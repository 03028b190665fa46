/**
 How RedisStore lays a flat key out as a hash and a field (mdb/storage-redis.go,
 GetKeyFieldOrNot), and what that means for the keys of the query cache.
 */
module RedisLayout {
  import opened Wrappers
  import opened CacheKeys
  import opened Sequences
  import opened Strings

  /** Cuts from the left, without overlaps; an empty separator cuts between all characters. */
  function Split(s: string, sep: string): (parts: seq<string>)
    ensures sep != "" ==> |parts| > 0
  {
    if sep == "" then seq(|s|, i requires 0 <= i < |s| => [s[i]])
    else
      var i := IndexOf(s, sep);
      if i < 0 then [s] else [s[..i]] + Split(s[i + |sep|..], sep)
  }

  function Join(parts: seq<string>, sep: string): string {
    if parts == [] then ""
    else if |parts| == 1 then parts[0]
    else parts[0] + sep + Join(parts[1..], sep)
  }

  /** The hash is everything before the last separator, the field what follows it. */
  function GetKeyFieldOrNot(key: string, sep: string): Option<(string, string)> {
    var s1 := Split(key, sep);
    if |s1| < 2 then None else Some((Join(s1[..|s1| - 1], sep), s1[|s1| - 1]))
  }

  // ---------- Splitting and rejoining ----------

  lemma {:induction false} JoinConcat(a: seq<string>, b: seq<string>, sep: string)
    requires a != [] && b != []
    ensures Join(a + b, sep) == Join(a, sep) + sep + Join(b, sep)
  {
    assert (a + b)[1..] == a[1..] + b;
    if |a| == 1 {
      assert a[1..] + b == b;
    } else {
      JoinConcat(a[1..], b, sep);
      assert Join(a + b, sep) == a[0] + sep + (Join(a[1..], sep) + sep + Join(b, sep));
    }
  }

  lemma {:induction false} JoinOfSplit(s: string, sep: string)
    ensures Join(Split(s, sep), sep) == s
  {
    if sep == "" {
      JoinOfCharacters(s);
    } else {
      var i := IndexOf(s, sep);
      if i >= 0 {
        var rest := s[i + |sep|..];
        JoinOfSplit(rest, sep);
        JoinConcat([s[..i]], Split(rest, sep), sep);
        assert s == s[..i] + s[i..i + |sep|] + rest;
      }
    }
  }

  lemma {:induction false} JoinOfCharacters(s: string)
    ensures Join(Split(s, ""), "") == s
  {
    if s != "" {
      JoinOfCharacters(s[1..]);
      assert Split(s, "") == [[s[0]]] + Split(s[1..], "");
      if |s| > 1 {
        JoinConcat([[s[0]]], Split(s[1..], ""), "");
      }
    }
  }

  /** Rejoining hash and field gives back the key. */
  lemma Rejoin(key: string, sep: string)
    requires GetKeyFieldOrNot(key, sep).Some?
    ensures var kf := GetKeyFieldOrNot(key, sep).value; kf.0 + sep + kf.1 == key
  {
    var s1 := Split(key, sep);
    var n := |s1| - 1;
    JoinOfSplit(key, sep);
    JoinConcat(s1[..n], [s1[n]], sep);
    assert s1 == s1[..n] + [s1[n]];
  }

  /** Distinct keys never share a hash and a field. */
  lemma LayoutInjective(a: string, b: string, sep: string)
    requires GetKeyFieldOrNot(a, sep).Some? && GetKeyFieldOrNot(a, sep) == GetKeyFieldOrNot(b, sep)
    ensures a == b
  {
    Rejoin(a, sep);
    Rejoin(b, sep);
  }

  /** A key is laid out exactly if the separator occurs in it. */
  lemma LaidOutIffSeparated(key: string, sep: string)
    requires sep != ""
    ensures GetKeyFieldOrNot(key, sep).Some? <==> Contains(key, sep)
  {
    FoundIffContained(key, sep);
  }

  // ---------- The cache's keys ----------

  predicate EndsInHalfSeparator(head: string) {
    |head| >= 4 && head[|head| - 4..] == ":sep"
  }

  /** Unless it ends in ":sep", a head is cut where the separator follows it, and not before. */
  lemma {:induction false} FirstCut(head: string, rest: string)
    requires !EndsInHalfSeparator(head)
    ensures IndexOf(head + SEPARATOR + rest, SEPARATOR) == if IndexOf(head, SEPARATOR) >= 0 then IndexOf(head, SEPARATOR) else |head|
  {
    var s := head + SEPARATOR + rest;
    if head == "" {
      assert SEPARATOR <= s;
    } else {
      assert s[1..] == head[1..] + SEPARATOR + rest;
      if |head| > 4 {
        assert head[1..][|head[1..]| - 4..] == head[|head| - 4..];
      }
      FirstCut(head[1..], rest);
      CutAtStart(head, rest);
    }
  }

  lemma CutAtStart(head: string, rest: string)
    requires head != "" && !EndsInHalfSeparator(head)
    ensures SEPARATOR <= head + SEPARATOR + rest <==> SEPARATOR <= head
  {
    var s := head + SEPARATOR + rest;
    if |head| >= 5 {
      assert s[..5] == head[..5];
    } else if |head| == 4 {
      assert s[..4] == head == head[|head| - 4..];
      assert SEPARATOR[..4] == ":sep";
    } else {
      assert s[|head|] == ':' && SEPARATOR[|head|] != ':';
    }
  }

  lemma SplitAtCut(s: string, before: string, after: string)
    requires s == before + SEPARATOR + after && IndexOf(s, SEPARATOR) == |before|
    ensures Split(s, SEPARATOR) == [before] + Split(after, SEPARATOR)
  {
    assert s[..|before|] == before && s[|before| + |SEPARATOR|..] == after;
  }

  /** A head that holds a separator, cut at the first one. */
  lemma CutHead(head: string) returns (before: string, tail: string)
    requires IndexOf(head, SEPARATOR) >= 0 && !EndsInHalfSeparator(head)
    ensures head == before + SEPARATOR + tail && |before| == IndexOf(head, SEPARATOR)
    ensures !EndsInHalfSeparator(tail)
  {
    var i := IndexOf(head, SEPARATOR);
    before, tail := head[..i], head[i + |SEPARATOR|..];
    assert head == head[..i] + head[i..i + |SEPARATOR|] + tail;
    if |tail| >= 4 {
      assert tail[|tail| - 4..] == head[|head| - 4..];
    }
  }

  /** Such a head and what follows it are split independently. */
  lemma {:induction false} SplitAfterHead(head: string, rest: string)
    requires !EndsInHalfSeparator(head)
    ensures Split(head + SEPARATOR + rest, SEPARATOR) == Split(head, SEPARATOR) + Split(rest, SEPARATOR)
    decreases |head|
  {
    FirstCut(head, rest);
    if IndexOf(head, SEPARATOR) < 0 {
      SplitAtCut(head + SEPARATOR + rest, head, rest);
    } else {
      var before, tail := CutHead(head);
      calc {
        Split(head + SEPARATOR + rest, SEPARATOR);
        {
          Associate(before + SEPARATOR, tail, SEPARATOR);
          Associate(before + SEPARATOR, tail + SEPARATOR, rest);
          SplitAtCut(head + SEPARATOR + rest, before, tail + SEPARATOR + rest);
        }
        [before] + Split(tail + SEPARATOR + rest, SEPARATOR);
        { SplitAfterHead(tail, rest); }
        [before] + (Split(tail, SEPARATOR) + Split(rest, SEPARATOR));
        { Associate([before], Split(tail, SEPARATOR), Split(rest, SEPARATOR)); }
        [before] + Split(tail, SEPARATOR) + Split(rest, SEPARATOR);
        { SplitAtCut(head, before, tail); }
        Split(head, SEPARATOR) + Split(rest, SEPARATOR);
      }
    }
  }

  /** Then the hash starts with the head, whatever follows it. */
  lemma HashKeepsHead(head: string, rest: string)
    requires !EndsInHalfSeparator(head)
    ensures var kf := GetKeyFieldOrNot(head + SEPARATOR + rest, SEPARATOR);
            && kf.Some? && head <= kf.value.0
            && (IndexOf(rest, SEPARATOR) < 0 ==> kf.value.0 == head)
            && (IndexOf(rest, SEPARATOR) >= 0 ==> head + SEPARATOR <= kf.value.0)
  {
    SplitAfterHead(head, rest);
    JoinOfSplit(head, SEPARATOR);
    LayoutOfParts(head + SEPARATOR + rest, Split(head, SEPARATOR), Split(rest, SEPARATOR));
  }

  lemma LayoutOfParts(key: string, a: seq<string>, b: seq<string>)
    requires Split(key, SEPARATOR) == a + b && a != [] && b != []
    ensures var kf := GetKeyFieldOrNot(key, SEPARATOR);
            && kf.Some?
            && (|b| == 1 ==> kf.value.0 == Join(a, SEPARATOR))
            && (|b| > 1 ==> Join(a, SEPARATOR) + SEPARATOR <= kf.value.0)
  {
    var front := b[..|b| - 1];
    AllButLast(a, b);
    if front == [] {
      assert a + front == a;
    } else {
      JoinConcat(a, front, SEPARATOR);
    }
  }

  lemma AllButLast<T>(a: seq<T>, b: seq<T>)
    requires b != []
    ensures (a + b)[..|a + b| - 1] == a + b[..|b| - 1] && (a + b)[|a + b| - 1] == b[|b| - 1]
  {
  }

  lemma TableHead(start: string, table: string)
    requires ColonFree(table)
    ensures EndsInHalfSeparator(start + ":" + table) <==> table == "sep"
  {
    var head := start + ":" + table;
    if |head| >= 4 {
      var tail := head[|head| - 4..];
      if |table| > 3 {
        assert tail[0] == table[|table| - 4];
      } else if |table| == 3 {
        assert table == tail[1..] && tail == ":" + table;
        assert ":sep" == ":" + "sep" && ":sep"[1..] == "sep";
      } else {
        assert tail[3 - |table|] == ':';
      }
    }
  }

  /** No table prefix ends in half a separator, unless the table is called "sep". */
  lemma TablePrefixes(pre: string, table: string)
    requires ColonFree(table) && table != "sep"
    ensures !EndsInHalfSeparator(PrimaryKeyPrefix(pre, table)) && !EndsInHalfSeparator(SearchKeyPrefix(pre, table))
  {
    TableHead(GLOBAL_PREFIX + ":" + pre + ":p", table);
    TableHead(GLOBAL_PREFIX + ":" + pre + ":s", table);
    assert PrimaryKeyPrefix(pre, table) == GLOBAL_PREFIX + ":" + pre + ":p" + ":" + table;
    assert SearchKeyPrefix(pre, table) == GLOBAL_PREFIX + ":" + pre + ":s" + ":" + table;
  }

  /** Every hash that holds a key of the table is found by the table's prefix, unless the table is called "sep". */
  lemma TableHashesFound(pre: string, table: string, x: string)
    requires ColonFree(table) && table != "sep"
    ensures var kf := GetKeyFieldOrNot(PrimaryCacheKey(pre, table, x), SEPARATOR);
            kf.Some? && PrimaryKeyPrefix(pre, table) <= kf.value.0
    ensures var kf := GetKeyFieldOrNot(SearchCacheKey(pre, table, x), SEPARATOR);
            kf.Some? && SearchKeyPrefix(pre, table) <= kf.value.0
  {
    TablePrefixes(pre, table);
    HashKeepsHead(PrimaryKeyPrefix(pre, table), x);
    SearchKeyShape(pre, table, x);
    HashKeepsHead(SearchKeyPrefix(pre, table), "[" + x + "]");
  }

  lemma SearchKeyShape(pre: string, table: string, sq: string)
    ensures SearchCacheKey(pre, table, sq) == SearchKeyPrefix(pre, table) + SEPARATOR + ("[" + sq + "]")
  {
  }

  /** The head that a key of a table called "sep" is cut at: it is one part short of the table's prefix. */
  lemma ShortHead(pre: string, kind: char)
    requires kind == 'p' || kind == 's'
    ensures !EndsInHalfSeparator(GLOBAL_PREFIX + ":" + pre + ":" + [kind])
  {
    var head := GLOBAL_PREFIX + ":" + pre + ":" + [kind];
    assert head[|head| - 4..][2] == head[|head| - 2] == ':';
  }

  lemma NoSeparatorAfterSep(x: string)
    requires ColonFree(x)
    ensures IndexOf("sep:" + x, SEPARATOR) < 0
  {
    var i := IndexOf("sep:" + x, SEPARATOR);
    if i >= 0 {
      ColonsOfSeparator("sep:" + x, i);
    }
  }

  lemma ColonsOfSeparator(s: string, i: nat)
    requires i + |SEPARATOR| <= |s| && s[i..i + |SEPARATOR|] == SEPARATOR
    ensures s[i] == ':' && s[i + 1] == 's' && s[i + 4] == ':'
  {
    assert s[i] == SEPARATOR[0] && s[i + 1] == SEPARATOR[1] && s[i + 4] == SEPARATOR[4];
  }

  /** For a table called "sep" the hash of every row's key is shorter than the table's prefix: dropping it misses the row. */
  lemma TableCalledSepIsMissed(pre: string, pk: string, id: nat)
    requires ColonFree(pk)
    ensures var kf := GetKeyFieldOrNot(PrimaryCacheKey(pre, "sep", IdText(pk, id)), SEPARATOR);
            kf.Some? && kf.value.0 == GLOBAL_PREFIX + ":" + pre + ":p" && !Contains(kf.value.0, PrimaryKeyPrefix(pre, "sep"))
  {
    var head, text := GLOBAL_PREFIX + ":" + pre + ":p", IdText(pk, id);
    assert PrimaryCacheKey(pre, "sep", text) == head + SEPARATOR + ("sep:" + text);
    ShortHead(pre, 'p');
    NoSeparatorAfterSep(text);
    HashKeepsHead(head, "sep:" + text);
  }

  /** So among colon-free table names exactly "sep" is one whose rows survive the dropping of their prefix. */
  lemma RowFoundIff(pre: string, table: string, pk: string, id: nat)
    requires ColonFree(table) && ColonFree(pk)
    ensures var kf := GetKeyFieldOrNot(PrimaryCacheKey(pre, table, IdText(pk, id)), SEPARATOR);
            kf.Some? && (Contains(kf.value.0, PrimaryKeyPrefix(pre, table)) <==> table != "sep")
  {
    if table == "sep" {
      TableCalledSepIsMissed(pre, pk, id);
    } else {
      TableHashesFound(pre, table, IdText(pk, id));
      PrefixIsContained(GetKeyFieldOrNot(PrimaryCacheKey(pre, table, IdText(pk, id)), SEPARATOR).value.0, PrimaryKeyPrefix(pre, table));
    }
  }

  /** A separator can lie only inside the SQL text. */
  lemma SeparatorInSql(sq: string)
    ensures IndexOf("sep:[" + sq + "]", SEPARATOR) >= 0 <==> Contains(sq, SEPARATOR)
  {
    var s := "sep:[" + sq + "]";
    var i := IndexOf(s, SEPARATOR);
    if i >= 0 {
      ColonsOfSeparator(s, i);
      assert s[4] == '[' && s[|s| - 1] == ']' && i != 3 && i + 4 != |s| - 1;
      assert i >= 5 && sq[i - 5..i - 5 + |SEPARATOR|] == s[i..i + |SEPARATOR|];
      assert OccursAt(sq, SEPARATOR, i - 5);
    } else {
      NowhereInside(s, SEPARATOR);
      forall j: nat | j <= |sq| ensures !OccursAt(sq, SEPARATOR, j) {
        if j + |SEPARATOR| <= |sq| {
          assert s[j + 5..j + 5 + |SEPARATOR|] == sq[j..j + |SEPARATOR|];
          assert !OccursAt(s, SEPARATOR, j + 5);
        }
      }
    }
  }

  lemma SearchOfSepFoundIff(pre: string, sq: string)
    ensures var kf := GetKeyFieldOrNot(SearchCacheKey(pre, "sep", sq), SEPARATOR);
            kf.Some? && (Contains(kf.value.0, SearchKeyPrefix(pre, "sep")) <==> Contains(sq, SEPARATOR))
  {
    var head, rest := GLOBAL_PREFIX + ":" + pre + ":s", "sep:[" + sq + "]";
    SearchKeyOfSep(pre, sq);
    ShortHead(pre, 's');
    SeparatorInSql(sq);
    HashKeepsHead(head, rest);
    var hash := GetKeyFieldOrNot(head + SEPARATOR + rest, SEPARATOR).value.0;
    if Contains(sq, SEPARATOR) {
      PrefixIsContained(hash, SearchKeyPrefix(pre, "sep"));
    } else {
      LongerNotContained(hash, SearchKeyPrefix(pre, "sep"));
    }
  }

  lemma SearchKeyOfSep(pre: string, sq: string)
    ensures var head := GLOBAL_PREFIX + ":" + pre + ":s";
            && SearchCacheKey(pre, "sep", sq) == head + SEPARATOR + ("sep:[" + sq + "]")
            && SearchKeyPrefix(pre, "sep") <= head + SEPARATOR && |head| < |SearchKeyPrefix(pre, "sep")|
  {
  }

  /** The search entries of a table called "sep" survive as well, but for those whose SQL text holds the separator. */
  lemma SearchFoundIff(pre: string, table: string, sq: string)
    requires ColonFree(table)
    ensures var kf := GetKeyFieldOrNot(SearchCacheKey(pre, table, sq), SEPARATOR);
            kf.Some? && (Contains(kf.value.0, SearchKeyPrefix(pre, table)) <==> table != "sep" || Contains(sq, SEPARATOR))
  {
    if table == "sep" {
      SearchOfSepFoundIff(pre, sq);
    } else {
      TableHashesFound(pre, table, sq);
      PrefixIsContained(GetKeyFieldOrNot(SearchCacheKey(pre, table, sq), SEPARATOR).value.0, SearchKeyPrefix(pre, table));
    }
  }
}
