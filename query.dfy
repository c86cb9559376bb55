/**
 * The GET side of the expense handler: the optional category filter, which
 * the store evaluates as `category ILIKE '%<trimmed text>%'`, and the two
 * descending sort orders.
 */
module Query {
  import opened Wrappers
  import opened Text
  import opened Records

  /** A query-string parameter: absent, given once, or given several times (an array). */
  datatype Param = Absent | Single(value: string) | Repeated(values: seq<string>)

  datatype SortOrder = ByDateDesc | ByCreatedDesc

  /**
   * LIKE matching with the store's case folding. In the pattern `%` matches
   * any run of characters, `_` any one character, and `\` makes the next
   * character literal; every other character matches itself up to case.
   * (A pattern ending in a lone `\` is an error for the store; the patterns
   * the handler builds always end in `%`, so it never arises.)
   */
  function Like(pattern: string, text: string): bool
    decreases |pattern| + |text|
  {
    if pattern == [] then text == []
    else if pattern[0] == '%' then
      Like(pattern[1..], text) || (text != [] && Like(pattern, text[1..]))
    else if pattern[0] == '_' then
      text != [] && Like(pattern[1..], text[1..])
    else if pattern[0] == '\\' && |pattern| >= 2 then
      text != [] && Fold(pattern[1]) == Fold(text[0]) && Like(pattern[2..], text[1..])
    else
      text != [] && Fold(pattern[0]) == Fold(text[0]) && Like(pattern[1..], text[1..])
  }

  /** The store's REST layer reads `*` in a LIKE pattern as `%`. */
  function StarsAsPercent(pattern: string): (r: string)
    ensures |r| == |pattern|
    ensures forall i :: 0 <= i < |pattern| ==> r[i] == (if pattern[i] == '*' then '%' else pattern[i])
  {
    seq(|pattern|, i requires 0 <= i < |pattern| => if pattern[i] == '*' then '%' else pattern[i])
  }

  /**
   * `ilike('category', pattern)` keeps a row when its category matches the
   * pattern once the REST layer has rewritten `*`; a pattern without `*`
   * reaches the store as it is.
   */
  predicate ILike(text: string, pattern: string): (r: bool)
    ensures (forall i :: 0 <= i < |pattern| ==> pattern[i] != '*') ==> (r <==> Like(pattern, text))
  {
    assert (forall i :: 0 <= i < |pattern| ==> pattern[i] != '*') ==> StarsAsPercent(pattern) == pattern;
    Like(StarsAsPercent(pattern), text)
  }

  /** Text in which no character has a special meaning in a pattern. */
  predicate Literal(s: string)
  {
    forall i :: 0 <= i < |s| ==> s[i] != '%' && s[i] != '*' && s[i] != '_' && s[i] != '\\'
  }

  /**
   * The filter of lines 109-112: applied only when `category` is given once and
   * is not empty once trimmed; the pattern is the trimmed text between `%`s.
   */
  function CategoryPattern(category: Param): (r: Option<string>)
    ensures r.Some? <==> category.Single? && Trim(category.value) != ""
    ensures r.Some? ==> r.value == "%" + Trim(category.value) + "%"
  {
    if category.Single? && Trim(category.value) != "" then Some("%" + Trim(category.value) + "%") else None
  }

  /** Lines 114-119: `sort=date_desc` orders by date, anything else by creation time. */
  function SortOrderOf(sort: Param): (r: SortOrder)
    ensures r == ByDateDesc <==> sort == Single("date_desc")
  {
    if sort == Single("date_desc") then ByDateDesc else ByCreatedDesc
  }

  predicate Keeps(pattern: Option<string>, e: Expense)
  {
    pattern.None? || ILike(e.category, pattern.value)
  }

  /** The rows the filter keeps, in store order, each as often as it is stored. */
  function Filter(rows: seq<Expense>, pattern: Option<string>): (r: seq<Expense>)
    ensures |r| <= |rows|
    ensures forall e :: multiset(r)[e] == if Keeps(pattern, e) then multiset(rows)[e] else 0
    ensures pattern.None? ==> r == rows
  {
    if rows == [] then []
    else
      var rest := Filter(rows[1..], pattern);
      assert rows == [rows[0]] + rows[1..];
      if Keeps(pattern, rows[0]) then [rows[0]] + rest else rest
  }

  /** Year, month and day read as one number, so that later dates have larger keys. */
  function DateKey(d: string): nat
  {
    if ValidDate(d) then DigitsValue(d[..4]) * 10000 + DigitsValue(d[5..7]) * 100 + DigitsValue(d[8..]) else 0
  }

  function SortKey(e: Expense, order: SortOrder): int
  {
    match order
    case ByDateDesc => DateKey(e.date)
    case ByCreatedDesc => e.createdAt
  }

  /** `order(..., { ascending: false })`: no row has a larger key than any row before it. */
  predicate SortedDesc(s: seq<Expense>, order: SortOrder)
  {
    forall i, j :: 0 <= i < j < |s| ==> SortKey(s[j], order) <= SortKey(s[i], order)
  }

  function Insert(e: Expense, s: seq<Expense>, order: SortOrder): (r: seq<Expense>)
    requires SortedDesc(s, order)
    ensures SortedDesc(r, order)
    ensures multiset(r) == multiset(s) + multiset{e}
  {
    if s == [] || SortKey(s[0], order) <= SortKey(e, order) then
      [e] + s
    else
      var rest := Insert(e, s[1..], order);
      assert s == [s[0]] + s[1..];
      InsertHead(e, s, rest, order);
      [s[0]] + rest
  }

  lemma InsertHead(e: Expense, s: seq<Expense>, rest: seq<Expense>, order: SortOrder)
    requires SortedDesc(s, order) && s != [] && SortKey(e, order) < SortKey(s[0], order)
    requires SortedDesc(rest, order) && multiset(rest) == multiset(s[1..]) + multiset{e}
    ensures SortedDesc([s[0]] + rest, order)
  {
    forall x | x in rest ensures SortKey(x, order) <= SortKey(s[0], order) {
      assert x in multiset(rest);
      if x != e {
        assert x in multiset(s[1..]);
        var j :| 0 <= j < |s[1..]| && s[1..][j] == x;
        assert s[j + 1] == x;
      }
    }
    var r := [s[0]] + rest;
    forall i, j | 0 <= i < j < |r| ensures SortKey(r[j], order) <= SortKey(r[i], order) {
      if i == 0 {
        assert r[j] == rest[j - 1] && r[j] in rest;
      } else {
        assert r[i] == rest[i - 1] && r[j] == rest[j - 1];
      }
    }
  }

  /** The store's ordering, modelled as a stable insertion sort on the key. */
  function SortDesc(s: seq<Expense>, order: SortOrder): (r: seq<Expense>)
    ensures SortedDesc(r, order)
    ensures multiset(r) == multiset(s)
  {
    if s == [] then []
    else
      assert s == [s[0]] + s[1..];
      Insert(s[0], SortDesc(s[1..], order), order)
  }

  /**
   * The rows a GET returns, before their amounts are formatted: exactly the
   * stored rows the filter keeps, each as often as it is stored, ordered by
   * the requested key, largest first.
   */
  function Query(rows: seq<Expense>, category: Param, sort: Param): (r: seq<Expense>)
    ensures SortedDesc(r, SortOrderOf(sort))
    ensures forall e :: multiset(r)[e] == if Keeps(CategoryPattern(category), e) then multiset(rows)[e] else 0
    ensures CategoryPattern(category).None? ==> multiset(r) == multiset(rows)
  {
    var kept := Filter(rows, CategoryPattern(category));
    SortDesc(kept, SortOrderOf(sort))
  }

  // ---- The category filter is a case-insensitive substring test ----

  /** A `%` matches every text. */
  lemma {:induction false} PercentMatchesAll(t: string)
    ensures Like("%", t)
  {
    assert "%"[1..] == [];
    if t != [] {
      PercentMatchesAll(t[1..]);
    }
  }

  /** A literal prefix of a pattern must match the text's prefix, up to case. */
  lemma {:induction false} LikeLiteralPrefix(n: string, rest: string, t: string)
    requires Literal(n)
    ensures Like(n + rest, t) <==>
              |n| <= |t| && OccursFoldedAt(n, t, 0) && Like(rest, t[|n|..])
  {
    if n == [] {
      assert n + rest == rest;
      assert t[0..] == t;
    } else {
      var p := n + rest;
      assert p[0] == n[0];
      assert p[1..] == n[1..] + rest;
      if t != [] {
        LikeLiteralPrefix(n[1..], rest, t[1..]);
        if |n| <= |t| {
          assert t[1..][|n| - 1..] == t[|n|..];
        }
        if Like(p, t) {
          forall k | 0 <= k < |n| ensures Fold(n[k]) == Fold(t[k]) {
            if k > 0 { assert n[1..][k - 1] == n[k] && t[1..][k - 1] == t[k]; }
          }
        }
        if OccursFoldedAt(n, t, 0) {
          assert OccursFoldedAt(n[1..], t[1..], 0) by {
            forall k | 0 <= k < |n| - 1 ensures Fold(n[1..][k]) == Fold(t[1..][k]) {
              assert n[1..][k] == n[k + 1] && t[1..][k] == t[k + 1];
            }
          }
        }
      }
    }
  }

  /** `t[i..]` is matched by `q`. */
  predicate MatchesFrom(q: string, t: string, i: int)
  {
    0 <= i <= |t| && Like(q, t[i..])
  }

  /** A leading `%` lets the rest of the pattern match any suffix of the text. */
  lemma {:induction false} LikeLeadingPercent(q: string, t: string)
    ensures Like("%" + q, t) <==> exists i :: MatchesFrom(q, t, i)
  {
    var p := "%" + q;
    assert p[0] == '%' && p[1..] == q;
    if t == [] {
      if Like(p, t) { assert MatchesFrom(q, t, 0); }
    } else {
      LikeLeadingPercent(q, t[1..]);
      if Like(p, t) {
        if Like(q, t) {
          assert t[0..] == t;
          assert MatchesFrom(q, t, 0);
        } else {
          var i :| MatchesFrom(q, t[1..], i);
          assert t[1..][i..] == t[i + 1..];
          assert MatchesFrom(q, t, i + 1);
        }
      }
      if exists i :: MatchesFrom(q, t, i) {
        var i :| MatchesFrom(q, t, i);
        if i == 0 {
          assert t[0..] == t;
        } else {
          assert t[1..][i - 1..] == t[i..];
          assert MatchesFrom(q, t[1..], i - 1);
        }
      }
    }
  }

  /**
   * For literal text, the pattern `%text%` keeps exactly the categories that
   * contain the text, ignoring case.
   */
  lemma LikeIsSubstring(n: string, t: string)
    requires Literal(n)
    ensures Like("%" + n + "%", t) <==> ContainsFolded(t, n)
  {
    assert "%" + n + "%" == "%" + (n + "%");
    LikeLeadingPercent(n + "%", t);
    if Like("%" + n + "%", t) {
      var i :| MatchesFrom(n + "%", t, i);
      LikeLiteralPrefix(n, "%", t[i..]);
      assert OccursFoldedAt(n, t, i) by {
        forall k | 0 <= k < |n| ensures Fold(n[k]) == Fold(t[i + k]) {
          assert t[i..][k] == t[i + k];
        }
      }
    }
    if ContainsFolded(t, n) {
      var i: nat :| i <= |t| && OccursFoldedAt(n, t, i);
      LikeLiteralPrefix(n, "%", t[i..]);
      PercentMatchesAll(t[i..][|n|..]);
      assert OccursFoldedAt(n, t[i..], 0) by {
        forall k | 0 <= k < |n| ensures Fold(n[k]) == Fold(t[i..][k]) {
          assert t[i..][k] == t[i + k];
        }
      }
      assert MatchesFrom(n + "%", t, i);
    }
  }

  /** Literal text has no `*` for the REST layer to rewrite. */
  lemma StarsAsPercentLiteral(n: string)
    requires Literal(n)
    ensures StarsAsPercent("%" + n + "%") == "%" + n + "%"
  {
  }

  /**
   * When the trimmed filter text has no pattern characters, a GET keeps exactly
   * the stored rows whose category contains it, ignoring case.
   */
  lemma FilterIsSubstring(category: Param, e: Expense)
    requires category.Single? && Trim(category.value) != "" && Literal(Trim(category.value))
    ensures Keeps(CategoryPattern(category), e) <==> ContainsFolded(e.category, Trim(category.value))
  {
    var n := Trim(category.value);
    StarsAsPercentLiteral(n);
    LikeIsSubstring(n, e.category);
  }

  /** Text that is already trimmed and not empty becomes the pattern unchanged. */
  lemma PatternOfTrimmedText(c: string)
    requires c != [] && Trimmed(c)
    ensures CategoryPattern(Single(c)) == Some("%" + c + "%")
  {
    TrimOfTrimmed(c);
  }

  /** `category=foo` keeps a "Food" row. */
  lemma FilterKeepsFood(foo: string, food: Expense)
    requires foo == "foo" && food.category == "Food"
    ensures Keeps(CategoryPattern(Single(foo)), food)
  {
    PatternOfTrimmedText(foo);
    assert Literal(foo);
    assert OccursFoldedAt(foo, food.category, 0) by {
      assert Fold('F') == 'f';
    }
    StarsAsPercentLiteral(foo);
    LikeIsSubstring(foo, food.category);
  }

  /** `category=foo` drops a "Travel" row. */
  lemma FilterDropsTravel(foo: string, travel: Expense)
    requires foo == "foo" && travel.category == "Travel"
    ensures !Keeps(CategoryPattern(Single(foo)), travel)
  {
    PatternOfTrimmedText(foo);
    assert Literal(foo);
    var t := travel.category;
    forall i: nat | i <= |t| ensures !OccursFoldedAt(foo, t, i) {
      if i + 3 <= |t| {
        assert foo[0] == 'f';
        if i == 0 { assert t[0] == 'T'; }
        else if i == 1 { assert t[1] == 'r'; }
        else if i == 2 { assert t[2] == 'a'; }
        else { assert t[3] == 'v'; }
      }
    }
    StarsAsPercentLiteral(foo);
    LikeIsSubstring(foo, t);
  }

  /** `_` is a pattern character: `category=_` keeps every row with a non-empty category. */
  lemma UnderscoreKeepsEveryRow(underscore: string, e: Expense)
    requires underscore == "_" && e.category != []
    ensures Keeps(CategoryPattern(Single(underscore)), e)
  {
    PatternOfTrimmedText(underscore);
    var p := "%" + underscore + "%";
    assert StarsAsPercent(p) == p;
    assert p[0] == '%' && p[1..] == "_%" && "_%"[1..] == "%";
    PercentMatchesAll(e.category[1..]);
    assert Like("_%", e.category);
    assert Like(p, e.category);
  }
}
