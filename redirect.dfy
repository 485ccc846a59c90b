/**
 * The redirect at the end of the POST branch of `next_movie_view`
 * (tracker/views.py): the filters are carried over to the next GET in the
 * query string. This module also models how that GET reads them back
 * (Django's query-string parsing), to state when the filters survive the
 * round trip.
 */
module Redirect {
  import opened Wrappers
  import Text

  // ------------------------------------------------------- building the URL

  /** A POSTed field taken as a filter: absent and empty both mean "no filter". */
  function Given(field: Option<string>): string {
    field.GetOr("")
  }

  /**
   * The query suffix for the given field texts: nothing when both are empty,
   * otherwise '?' and the non-empty ones, `genre=` before `person_query=`,
   * joined by '&'.
   */
  function QuerySuffix(genre: string, person: string): string {
    if genre == "" && person == "" then ""
    else if person == "" then "?" + ("genre" + "=" + genre)
    else if genre == "" then "?" + ("person_query" + "=" + person)
    else "?" + ("genre" + "=" + genre + "&" + "person_query" + "=" + person)
  }

  /** The redirect target as the view builds it: the field texts go in unencoded. */
  function RedirectUrl(base: string, genre: Option<string>, personQuery: Option<string>): string {
    base + QuerySuffix(Given(genre), Text.Strip(Given(personQuery)))
  }

  /**
   * The view's redirect: `params` collects `genre=…` when a genre was posted
   * and `person_query=…` when the stripped person query is not empty; the URL
   * gets '?' and the joined params only when there are any.
   */
  method BuildRedirect(base: string, genre: Option<string>, personQuery: Option<string>)
    returns (url: string)
    ensures url == RedirectUrl(base, genre, personQuery)
    ensures Given(genre) == "" && Text.Strip(Given(personQuery)) == "" ==> url == base
    ensures Given(genre) != "" || Text.Strip(Given(personQuery)) != "" ==>
              |url| > |base| && url[..|base|] == base && url[|base|] == '?'
  {
    url := base;
    var person := Text.Strip(personQuery.GetOr(""));
    var params: seq<string> := [];
    if genre.Some? && genre.value != "" {
      params := params + ["genre=" + genre.value];
    }
    if person != "" {
      params := params + ["person_query=" + person];
    }
    ghost var g := Given(genre);
    if params != [] {
      var joined := Text.Join(params, "&");
      assert url + "?" + joined == base + ("?" + joined);
      url := url + "?" + joined;
    }
    JoinedParams(g, person);
    if g != "" && person != "" {
      assert params == ["genre=" + g, "person_query=" + person];
    } else if g != "" {
      assert params == ["genre=" + g];
    } else if person != "" {
      assert params == ["person_query=" + person];
    }
  }

  /**
   * The view's `params` list, joined by '&' behind a '?', is `QuerySuffix`:
   * `genre=…` before `person_query=…`, each present only when non-empty.
   */
  lemma JoinedParams(g: string, p: string)
    ensures g == "" && p == "" ==> QuerySuffix(g, p) == ""
    ensures g != "" && p == "" ==> "?" + Text.Join(["genre=" + g], "&") == QuerySuffix(g, p)
    ensures g == "" && p != "" ==> "?" + Text.Join(["person_query=" + p], "&") == QuerySuffix(g, p)
    ensures g != "" && p != "" ==>
              "?" + Text.Join(["genre=" + g, "person_query=" + p], "&") == QuerySuffix(g, p)
  {
    if g != "" && p != "" {
      JoinedBoth(g, p);
    } else if g != "" {
      assert "genre=" == "genre" + "=";
    } else if p != "" {
      assert "person_query=" == "person_query" + "=";
    }
  }

  lemma JoinedBoth(g: string, p: string)
    requires g != "" && p != ""
    ensures "?" + Text.Join(["genre=" + g, "person_query=" + p], "&") == QuerySuffix(g, p)
  {
    var x, y := "genre=" + g, "person_query=" + p;
    assert [x, y][1..] == [y];
    assert "genre=" == "genre" + "=";
    assert "person_query=" == "person_query" + "=";
    var a := x + "&";
    Assoc(a, "person_query" + "=", p);
    Assoc(a, "person_query", "=");
  }

  lemma Assoc(a: string, b: string, c: string)
    ensures a + (b + c) == a + b + c
  {
  }

  // --------------------------------------------- reading the filters back

  /** What follows the first `c` in `s`; empty when `s` has no `c`. */
  function After(s: string, c: char): string {
    if s == [] then []
    else if s[0] == c then s[1..]
    else After(s[1..], c)
  }

  /**
   * The query string a browser sends when it follows a Location URL: what
   * follows the first '?', cut at the first '#' (the fragment stays in the browser).
   */
  function QueryOf(url: string): string {
    Text.UpTo(After(url, '?'), '#')
  }

  /** Python's `q.split('&')`: the '&'-separated fields of a query string. */
  function Fields(q: string): (fs: seq<string>)
    ensures |fs| >= 1
  {
    if q == [] then [""]
    else
      var rest := Fields(q[1..]);
      if q[0] == '&' then [""] + rest else [[q[0]] + rest[0]] + rest[1..]
  }

  predicate IsHex(c: char) {
    '0' <= c <= '9' || 'a' <= c <= 'f' || 'A' <= c <= 'F'
  }

  function HexValue(c: char): (v: nat)
    requires IsHex(c)
    ensures v < 16
  {
    if '0' <= c <= '9' then c as int - '0' as int
    else if 'a' <= c <= 'f' then c as int - 'a' as int + 10
    else c as int - 'A' as int + 10
  }

  /** `%XX` at the head of `s` denoting an ASCII character (first hex digit at most 7). */
  predicate EscapeAt(s: string) {
    |s| >= 3 && s[0] == '%' && '0' <= s[1] <= '7' && IsHex(s[2])
  }

  /** The ASCII character of the escape `%` `hi` `lo`. */
  function EscapedChar(hi: char, lo: char): char
    requires '0' <= hi <= '7' && IsHex(lo)
  {
    ((hi as int - '0' as int) * 16 + HexValue(lo)) as char
  }

  /** `unquote_plus`: '+' is a space and `%XX` the character with that code. */
  function Unquote(s: string): string
    decreases |s|
  {
    if s == [] then []
    else if s[0] == '+' then [' '] + Unquote(s[1..])
    else if EscapeAt(s) then [EscapedChar(s[1], s[2])] + Unquote(s[3..])
    else [s[0]] + Unquote(s[1..])
  }

  /** One field split at its first '=' into name and value; a field without '=' has an empty value. */
  function SplitField(f: string): (string, string) {
    if f == [] then ("", "")
    else if f[0] == '=' then ("", f[1..])
    else var (k, v) := SplitField(f[1..]); ([f[0]] + k, v)
  }

  /** The (name, value) fields of a query string, in order, empty fields dropped, not yet decoded. */
  function RawPairs(fs: seq<string>): seq<(string, string)> {
    if fs == [] then []
    else if fs[0] == "" then RawPairs(fs[1..])
    else [SplitField(fs[0])] + RawPairs(fs[1..])
  }

  /** Django's `QueryDict` for a query string, before decoding. */
  function ParseQuery(q: string): seq<(string, string)> {
    RawPairs(Fields(q))
  }

  /** `QueryDict.get(name)`: the decoded value of the last field whose decoded name is `name`. */
  function Lookup(pairs: seq<(string, string)>, name: string): Option<string> {
    if pairs == [] then None
    else if Unquote(pairs[|pairs| - 1].0) == name then Some(Unquote(pairs[|pairs| - 1].1))
    else Lookup(pairs[..|pairs| - 1], name)
  }

  /** The filters a view acts on: the genre when non-empty, and the stripped person query. */
  datatype Filters = Filters(genre: Option<string>, person: string)

  function ActiveFilters(genre: Option<string>, personQuery: Option<string>): Filters {
    Filters(if Given(genre) != "" then genre else None, Text.Strip(Given(personQuery)))
  }

  /** The filters the GET branch reads from the URL it was sent to. */
  function FiltersOfUrl(url: string): Filters {
    var pairs := ParseQuery(QueryOf(url));
    ActiveFilters(Lookup(pairs, "genre"), Lookup(pairs, "person_query"))
  }

  // ------------------------------------------------------------ round trip

  /** The characters with a meaning of their own in a query string or URL. */
  predicate Reserved(c: char) {
    c == '&' || c == '#' || c == '+' || c == '%'
  }

  predicate Plain(s: string) {
    forall i :: 0 <= i < |s| ==> !Reserved(s[i])
  }

  lemma {:induction false} UnquotePlain(s: string)
    requires Plain(s)
    ensures Unquote(s) == s
  {
    if s != [] {
      UnquotePlain(s[1..]);
    }
  }

  lemma {:induction false} AfterFirst(a: string, c: char, b: string)
    requires c !in a
    ensures After(a + [c] + b, c) == b
  {
    if a != [] {
      assert (a + [c] + b)[1..] == a[1..] + [c] + b;
      AfterFirst(a[1..], c, b);
    }
  }

  lemma {:induction false} AfterAbsent(s: string, c: char)
    requires c !in s
    ensures After(s, c) == ""
  {
    if s != [] {
      AfterAbsent(s[1..], c);
    }
  }

  lemma QueryOfSuffix(base: string, q: string)
    requires '?' !in base && '#' !in q
    ensures QueryOf(base + "?" + q) == q
  {
    AfterFirst(base, '?', q);
    Text.UpToAbsent(q, '#');
  }

  lemma {:induction false} FieldsSingle(f: string)
    requires '&' !in f
    ensures Fields(f) == [f]
  {
    if f != [] {
      FieldsSingle(f[1..]);
      assert [f[0]] + f[1..] == f;
    }
  }

  lemma {:induction false} FieldsCons(a: string, b: string)
    requires '&' !in a
    ensures Fields(a + "&" + b) == [a] + Fields(b)
  {
    if a == [] {
      assert ("" + "&" + b)[1..] == b;
    } else {
      var s := a + "&" + b;
      assert s[1..] == a[1..] + "&" + b;
      FieldsCons(a[1..], b);
      assert [a[0]] + a[1..] == a;
      assert ([a[1..]] + Fields(b))[1..] == Fields(b);
    }
  }

  lemma {:induction false} SplitNamed(name: string, v: string)
    requires '=' !in name
    ensures SplitField(name + "=" + v) == (name, v)
  {
    if name == [] {
      assert ("" + "=" + v)[1..] == v;
    } else {
      assert (name + "=" + v)[1..] == name[1..] + "=" + v;
      SplitNamed(name[1..], v);
      assert [name[0]] + name[1..] == name;
    }
  }

  /** A field name: nothing to decode, and no '=' or '&' in it. */
  predicate FieldName(n: string) {
    Plain(n) && '=' !in n && '&' !in n
  }

  lemma FieldNameReadsBack(n: string)
    requires FieldName(n)
    ensures Unquote(n) == n
  {
    UnquotePlain(n);
  }

  lemma GenreIsFieldName()
    ensures FieldName("genre") && '#' !in "genre"
  {
    assert forall i | 0 <= i < |"genre"| :: !Reserved("genre"[i]) && "genre"[i] != '=';
  }

  lemma PersonQueryIsFieldName()
    ensures FieldName("person_query") && '#' !in "person_query"
  {
    assert forall i | 0 <= i < |"person_query"| :: !Reserved("person_query"[i]) && "person_query"[i] != '=';
  }

  lemma NamedFieldHasNoAmp(name: string, v: string)
    requires '&' !in name && '&' !in v
    ensures '&' !in name + "=" + v
  {
  }

  lemma RawPairsNamed(name: string, v: string, rest: seq<string>)
    requires '=' !in name
    ensures RawPairs([name + "=" + v] + rest) == [(name, v)] + RawPairs(rest)
  {
    SplitNamed(name, v);
    assert ([name + "=" + v] + rest)[1..] == rest;
  }

  /** A query made of one `name=value` field. */
  lemma ParseOne(name: string, v: string)
    requires '=' !in name && '&' !in name && '&' !in v
    ensures ParseQuery(name + "=" + v) == [(name, v)]
  {
    NamedFieldHasNoAmp(name, v);
    FieldsSingle(name + "=" + v);
    RawPairsNamed(name, v, []);
    assert [name + "=" + v] + [] == [name + "=" + v];
  }

  /** A query made of two `name=value` fields. */
  lemma ParseTwo(n1: string, v1: string, n2: string, v2: string)
    requires '=' !in n1 && '&' !in n1 && '&' !in v1
    requires '=' !in n2 && '&' !in n2 && '&' !in v2
    ensures ParseQuery(n1 + "=" + v1 + "&" + n2 + "=" + v2) == [(n1, v1), (n2, v2)]
  {
    var f1 := n1 + "=" + v1;
    var f2 := n2 + "=" + v2;
    assert n1 + "=" + v1 + "&" + n2 + "=" + v2 == f1 + "&" + f2;
    NamedFieldHasNoAmp(n1, v1);
    NamedFieldHasNoAmp(n2, v2);
    FieldsCons(f1, f2);
    FieldsSingle(f2);
    RawPairsNamed(n1, v1, [f2]);
    RawPairsNamed(n2, v2, []);
    assert [f2] + [] == [f2];
  }

  /** Looking a name up in one or two decoded-name fields. */
  lemma LookupSmall(n1: string, v1: string, n2: string, v2: string, name: string)
    ensures Lookup([(n1, v1)], name) == if Unquote(n1) == name then Some(Unquote(v1)) else None
    ensures Lookup([(n1, v1), (n2, v2)], name)
            == if Unquote(n2) == name then Some(Unquote(v2))
               else if Unquote(n1) == name then Some(Unquote(v1)) else None
  {
    assert [(n1, v1), (n2, v2)][..1] == [(n1, v1)];
    assert [(n1, v1)][..0] == [];
  }

  /** A redirect carrying one field: its value is found under its name, and another name finds nothing. */
  lemma ReadBackOne(base: string, n: string, v: string, other: string)
    requires '?' !in base && FieldName(n) && '#' !in n
    requires '&' !in v && '#' !in v && other != n
    ensures Lookup(ParseQuery(QueryOf(base + "?" + (n + "=" + v))), n) == Some(Unquote(v))
    ensures Lookup(ParseQuery(QueryOf(base + "?" + (n + "=" + v))), other) == None
  {
    assert '#' !in n + "=" + v;
    QueryOfSuffix(base, n + "=" + v);
    ParseOne(n, v);
    FieldNameReadsBack(n);
    LookupSmall(n, v, "", "", n);
    LookupSmall(n, v, "", "", other);
  }

  /** A redirect carrying two fields under different names: each value is found under its name. */
  lemma ReadBackTwo(base: string, n1: string, v1: string, n2: string, v2: string)
    requires '?' !in base && FieldName(n1) && FieldName(n2) && '#' !in n1 && '#' !in n2 && n1 != n2
    requires '&' !in v1 && '#' !in v1 && '&' !in v2 && '#' !in v2
    ensures Lookup(ParseQuery(QueryOf(base + "?" + (n1 + "=" + v1 + "&" + n2 + "=" + v2))), n1) == Some(Unquote(v1))
    ensures Lookup(ParseQuery(QueryOf(base + "?" + (n1 + "=" + v1 + "&" + n2 + "=" + v2))), n2) == Some(Unquote(v2))
  {
    var q := n1 + "=" + v1 + "&" + n2 + "=" + v2;
    assert '#' !in q;
    QueryOfSuffix(base, q);
    ParseTwo(n1, v1, n2, v2);
    FieldNameReadsBack(n1);
    FieldNameReadsBack(n2);
    LookupSmall(n1, v1, n2, v2, n1);
    LookupSmall(n1, v1, n2, v2, n2);
  }

  /** The two lookups the GET branch makes on the query of `url`. */
  predicate ReadsBack(url: string, genre: Option<string>, person: Option<string>) {
    var pairs := ParseQuery(QueryOf(url));
    Lookup(pairs, "genre") == genre && Lookup(pairs, "person_query") == person
  }

  lemma NamesDiffer()
    ensures "genre" != "person_query"
  {
    assert |"genre"| != |"person_query"|;
  }

  lemma SuffixNone(base: string, g: string, p: string)
    requires '?' !in base && g == "" && p == ""
    ensures ReadsBack(base + QuerySuffix(g, p), None, None)
  {
    assert base + QuerySuffix(g, p) == base;
    AfterAbsent(base, '?');
    assert Fields("") == [""];
  }

  lemma SuffixGenre(base: string, g: string, p: string)
    requires '?' !in base && '&' !in g && '#' !in g && g != "" && p == ""
    ensures ReadsBack(base + QuerySuffix(g, p), Some(Unquote(g)), None)
  {
    assert base + QuerySuffix(g, p) == base + "?" + ("genre" + "=" + g);
    GenreIsFieldName();
    NamesDiffer();
    ReadBackOne(base, "genre", g, "person_query");
  }

  lemma SuffixPerson(base: string, g: string, p: string)
    requires '?' !in base && '&' !in p && '#' !in p && g == "" && p != ""
    ensures ReadsBack(base + QuerySuffix(g, p), None, Some(Unquote(p)))
  {
    assert base + QuerySuffix(g, p) == base + "?" + ("person_query" + "=" + p);
    PersonQueryIsFieldName();
    NamesDiffer();
    ReadBackOne(base, "person_query", p, "genre");
  }

  lemma BothUrl(base: string, g: string, p: string)
    requires g != "" && p != ""
    ensures base + QuerySuffix(g, p) == base + "?" + ("genre" + "=" + g + "&" + "person_query" + "=" + p)
  {
  }

  lemma SuffixBoth(base: string, g: string, p: string)
    requires '?' !in base && '&' !in g && '#' !in g && '&' !in p && '#' !in p && g != "" && p != ""
    ensures ReadsBack(base + QuerySuffix(g, p), Some(Unquote(g)), Some(Unquote(p)))
  {
    BothUrl(base, g, p);
    GenreIsFieldName();
    PersonQueryIsFieldName();
    NamesDiffer();
    ReadBackTwo(base, "genre", g, "person_query", p);
  }

  /**
   * Whatever the two field texts are, as long as neither contains '&' or '#',
   * the GET side finds each non-empty one under its name, decoded by `Unquote`.
   */
  lemma {:induction false} SuffixReadBack(base: string, g: string, p: string)
    requires '?' !in base
    requires '&' !in g && '#' !in g && '&' !in p && '#' !in p
    ensures ReadsBack(base + QuerySuffix(g, p),
                      if g != "" then Some(Unquote(g)) else None,
                      if p != "" then Some(Unquote(p)) else None)
  {
    if g == "" && p == "" {
      SuffixNone(base, g, p);
    } else if p == "" {
      SuffixGenre(base, g, p);
    } else if g == "" {
      SuffixPerson(base, g, p);
    } else {
      SuffixBoth(base, g, p);
    }
  }

  /** `Strip` only removes characters, so it keeps a text plain. */
  lemma StripKeepsPlain(s: string)
    requires Plain(s)
    ensures Plain(Text.Strip(s))
  {
    var t := Text.TrimStart(s);
    PlainSlice(s, |s| - |t|, |s|);
    PlainSlice(t, 0, |Text.TrimEnd(t)|);
  }

  lemma PlainSlice(s: string, lo: nat, hi: nat)
    requires Plain(s) && lo <= hi <= |s|
    ensures Plain(s[lo..hi])
  {
    assert forall i | 0 <= i < hi - lo :: s[lo..hi][i] == s[lo + i];
  }

  /** The GET branch's filters, once both lookups are known. */
  lemma FiltersOfReadBack(url: string, genre: Option<string>, person: Option<string>)
    requires ReadsBack(url, genre, person)
    ensures FiltersOfUrl(url) == ActiveFilters(genre, person)
  {
  }

  /**
   * As written, the filters survive the redirect when their texts contain none
   * of '&', '#', '+', '%' (the view's base URL has no '?').
   */
  lemma {:induction false} RedirectKeepsPlainFilters(base: string, genre: Option<string>, personQuery: Option<string>)
    requires '?' !in base
    requires Plain(Given(genre)) && Plain(Given(personQuery))
    ensures FiltersOfUrl(RedirectUrl(base, genre, personQuery)) == ActiveFilters(genre, personQuery)
  {
    var g := Given(genre);
    var p := Text.Strip(Given(personQuery));
    StripKeepsPlain(Given(personQuery));
    PlainReadBack(base, g, p);
    var url := RedirectUrl(base, genre, personQuery);
    assert url == base + QuerySuffix(g, p);
    FiltersOfReadBack(url, if g != "" then Some(g) else None, if p != "" then Some(p) else None);
    ReadFiltersActive(genre, personQuery);
  }

  /** Plain field texts are read back as they are. */
  lemma PlainReadBack(base: string, g: string, p: string)
    requires '?' !in base && Plain(g) && Plain(p)
    ensures ReadsBack(base + QuerySuffix(g, p), if g != "" then Some(g) else None, if p != "" then Some(p) else None)
  {
    assert '&' !in g && '#' !in g by {
      assert forall i | 0 <= i < |g| :: !Reserved(g[i]);
    }
    assert '&' !in p && '#' !in p by {
      assert forall i | 0 <= i < |p| :: !Reserved(p[i]);
    }
    SuffixReadBack(base, g, p);
    UnquotePlain(g);
    UnquotePlain(p);
  }

  /** The filters read back as the non-empty field texts are the filters the view acted on. */
  lemma ReadFiltersActive(genre: Option<string>, personQuery: Option<string>)
    ensures var g := Given(genre);
            var p := Text.Strip(Given(personQuery));
            ActiveFilters(if g != "" then Some(g) else None, if p != "" then Some(p) else None)
              == ActiveFilters(genre, personQuery)
  {
    Text.StripIdempotent(Given(personQuery));
  }

  /**
   * A field `n=a&b`: the '&' ends the field, so `n` finds only `a`, and `b`
   * becomes a name of its own with an empty value.
   */
  lemma ReadBackCut(base: string, n: string, a: string, b: string, other: string)
    requires '?' !in base && FieldName(n) && '#' !in n
    requires '&' !in a && '#' !in a && b != "" && FieldName(b) && '#' !in b
    requires b != n && b != other && other != n
    ensures Lookup(ParseQuery(QueryOf(base + "?" + (n + "=" + a + "&" + b))), n) == Some(Unquote(a))
    ensures Lookup(ParseQuery(QueryOf(base + "?" + (n + "=" + a + "&" + b))), other) == None
  {
    var q := n + "=" + a + "&" + b;
    assert '#' !in q;
    QueryOfSuffix(base, q);
    FieldsCons(n + "=" + a, b);
    FieldsSingle(b);
    RawPairsNamed(n, a, [b]);
    SplitAbsent(b);
    assert [b][1..] == [];
    assert RawPairs([b]) == [(b, "")];
    FieldNameReadsBack(n);
    FieldNameReadsBack(b);
    LookupSmall(n, a, b, "", n);
    LookupSmall(n, a, b, "", other);
  }

  lemma CutUrl(base: string, a: string, b: string)
    requires a != "" && !Text.IsSpace(a[0]) && b != "" && !Text.IsSpace(b[|b| - 1])
    ensures RedirectUrl(base, None, Some(a + "&" + b)) == base + "?" + ("person_query" + "=" + a + "&" + b)
  {
    var s := a + "&" + b;
    Text.StripTrimmed(s);
    assert Given(None) == "" && Text.Strip(Given(Some(s))) == s;
    assert QuerySuffix("", s) == "?" + ("person_query" + "=" + s);
    assert "person_query" + "=" + s == "person_query" + "=" + a + "&" + b;
  }

  /**
   * As written, a person query `a&b` is cut short by the redirect: it is read
   * back as `a`, and `b` becomes a field of its own (for instance "A&B" comes
   * back as "A").
   */
  lemma AmpersandSplitsPersonQuery(base: string, a: string, b: string)
    requires '?' !in base
    requires a != "" && Plain(a) && !Text.IsSpace(a[0]) && !Text.IsSpace(a[|a| - 1])
    requires b != "" && FieldName(b) && '#' !in b && !Text.IsSpace(b[|b| - 1])
    requires b != "genre" && b != "person_query"
    ensures RedirectUrl(base, None, Some(a + "&" + b)) == base + "?" + ("person_query" + "=" + a + "&" + b)
    ensures FiltersOfUrl(RedirectUrl(base, None, Some(a + "&" + b))) == Filters(None, a)
  {
    CutUrl(base, a, b);
    PersonQueryIsFieldName();
    NamesDiffer();
    ReadBackCut(base, "person_query", a, b, "genre");
    UnquotePlain(a);
    Text.StripTrimmed(a);
    FiltersOfReadBack(RedirectUrl(base, None, Some(a + "&" + b)), None, Some(a));
  }

  /** The person query "A&B", redirected to "/", comes back as "A". */
  lemma AmpersandExample(a: string, b: string)
    requires a == "A" && b == "B"
    ensures FiltersOfUrl(RedirectUrl("/", None, Some(a + "&" + b))) == Filters(None, a)
  {
    assert !Reserved(a[0]) && !Reserved(b[0]) && b[0] != '=' && b[0] != '#';
    assert |b| != |"genre"| && |b| != |"person_query"|;
    AmpersandSplitsPersonQuery("/", a, b);
  }

  /** A field without '=' is a name with an empty value. */
  lemma {:induction false} SplitAbsent(f: string)
    requires '=' !in f
    ensures SplitField(f) == (f, "")
  {
    if f != [] {
      SplitAbsent(f[1..]);
      assert [f[0]] + f[1..] == f;
    }
  }

  // ------------------------------------------------- percent-encoded variant

  /** `quote`: each reserved character becomes its `%XX` escape. */
  function Quote(s: string): (r: string)
    ensures '&' !in r && '#' !in r && '+' !in r
    ensures r == "" <==> s == ""
  {
    if s == [] then []
    else
      var head :=
        if s[0] == '%' then "%25"
        else if s[0] == '&' then "%26"
        else if s[0] == '+' then "%2B"
        else if s[0] == '#' then "%23"
        else [s[0]];
      head + Quote(s[1..])
  }

  lemma {:induction false} QuoteRoundTrip(s: string)
    ensures Unquote(Quote(s)) == s
  {
    if s != [] {
      QuoteRoundTrip(s[1..]);
      var r := Quote(s);
      var t := Quote(s[1..]);
      if Reserved(s[0]) {
        assert r == [r[0], r[1], r[2]] + t;
        assert EscapeAt(r);
        assert r[3..] == t;
      } else {
        assert r == [s[0]] + t;
        assert r[1..] == t;
      }
    }
  }

  /** The redirect target with both field texts percent-encoded. */
  function EncodedRedirectUrl(base: string, genre: Option<string>, personQuery: Option<string>): string {
    base + QuerySuffix(Quote(Given(genre)), Quote(Text.Strip(Given(personQuery))))
  }

  /** With encoding, every pair of filters survives the redirect unchanged. */
  lemma EncodedRedirectKeepsFilters(base: string, genre: Option<string>, personQuery: Option<string>)
    requires '?' !in base
    ensures FiltersOfUrl(EncodedRedirectUrl(base, genre, personQuery)) == ActiveFilters(genre, personQuery)
  {
    var g := Given(genre);
    var p := Text.Strip(Given(personQuery));
    SuffixReadBack(base, Quote(g), Quote(p));
    QuoteRoundTrip(g);
    QuoteRoundTrip(p);
    var url := EncodedRedirectUrl(base, genre, personQuery);
    var gRead := if g != "" then Some(g) else None;
    var pRead := if p != "" then Some(p) else None;
    assert ReadsBack(url, gRead, pRead);
    FiltersOfReadBack(url, gRead, pRead);
    ReadFiltersActive(genre, personQuery);
  }
}
