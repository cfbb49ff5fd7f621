/** The Dataview query helpers: `validate_dql_query`, the builders of
    `TABLE` queries (the REST API runs no other kind, so a `LIST` is
    imitated by `TABLE file.name`), and the query text the tag and folder
    tools build. Running a query is a call into Obsidian and is not part of
    this model. */
module Dql {
  import opened Wrappers
  import opened Text

  /** `validate_dql_query`: the stripped query must start with `TABLE` in
      any letter case and be at least five characters long. */
  function ValidateDqlQuery(query: string): bool {
    var q := Strip(query);
    if !StartsWith(Upper(q), "TABLE") then false
    else if |q| < 5 then false
    else true
  }

  /** A query is valid exactly when its first five characters, after
      stripping, spell `TABLE` in any letter case; the length check never
      decides anything. */
  lemma ValidateDqlQueryMeaning(query: string)
    ensures ValidateDqlQuery(query) <==> StartsWith(Upper(Strip(query)), "TABLE")
    ensures ValidateDqlQuery(query) <==>
      |Strip(query)| >= 5 && forall i :: 0 <= i < 5 ==> AsciiUpper(Strip(query)[i]) == "TABLE"[i]
  {
    UpperStartsWith(Strip(query), "TABLE");
  }

  /** The upper-cased text starts with `p` exactly when its first `|p|`
      characters, upper-cased, are those of `p`. */
  lemma UpperStartsWith(q: string, p: string)
    ensures StartsWith(Upper(q), p) <==>
      |p| <= |q| && forall i :: 0 <= i < |p| ==> AsciiUpper(q[i]) == p[i]
  {
    var u := Upper(q);
    if |p| <= |q| {
      if forall i :: 0 <= i < |p| ==> AsciiUpper(q[i]) == p[i] {
        assert forall i :: 0 <= i < |p| ==> u[..|p|][i] == p[i];
        assert u[..|p|] == p;
      }
      if StartsWith(u, p) {
        assert forall i :: 0 <= i < |p| ==> u[i] == u[..|p|][i];
      }
    }
  }

  /** `parts.append(f"{keyword} {value}")` under `if value:`. */
  function Clause(keyword: string, value: Option<string>): seq<string> {
    if value.GetOr("") != "" then [keyword + " " + value.GetOr("")] else []
  }

  /** `parts.append(f"LIMIT {limit}")` under `if limit:`: zero and `None`
      add nothing, a negative limit is written as it is. */
  function LimitClause(limit: Option<int>): seq<string> {
    if limit.GetOr(0) != 0 then ["LIMIT " + IntToString(limit.GetOr(0))] else []
  }

  /** The clauses after the head, in the builders' order. */
  function Clauses(from: Option<string>, where: Option<string>, sort: Option<string>, limit: Option<int>): seq<string> {
    Clause("FROM", from) + Clause("WHERE", where) + Clause("SORT", sort) + LimitClause(limit)
  }

  /** `", ".join(fields)` */
  function JoinFields(fields: seq<string>): string {
    if fields == [] then ""
    else if |fields| == 1 then fields[0]
    else JoinFields(fields[..|fields| - 1]) + ", " + fields[|fields| - 1]
  }

  /** `build_dql_list_query` */
  function BuildDqlListQuery(from: Option<string>, where: Option<string>, sort: Option<string>,
                             limit: Option<int>): string {
    SpaceJoin(["TABLE file.name"] + Clauses(from, where, sort, limit))
  }

  /** `build_dql_table_query`: a `ValueError` without fields. */
  function BuildDqlTableQuery(fields: seq<string>, from: Option<string>, where: Option<string>,
                              sort: Option<string>, limit: Option<int>): (r: Result<string, string>)
    ensures r.Failure? <==> fields == []
  {
    if fields == [] then Failure("TABLE query requires at least one field")
    else Success(SpaceJoin(["TABLE " + JoinFields(fields)] + Clauses(from, where, sort, limit)))
  }

  /** Each part after the first, preceded by its space. */
  function Spaced(parts: seq<string>): string {
    if parts == [] then "" else Spaced(parts[..|parts| - 1]) + " " + parts[|parts| - 1]
  }

  lemma {:induction false} SpaceJoinLead(x: string, parts: seq<string>)
    ensures SpaceJoin([x] + parts) == x + Spaced(parts)
    decreases |parts|
  {
    if parts != [] {
      var s := [x] + parts;
      assert s[..|s| - 1] == [x] + parts[..|parts| - 1];
      SpaceJoinLead(x, parts[..|parts| - 1]);
    }
  }

  lemma {:induction false} SpacedAppend(a: seq<string>, b: seq<string>)
    ensures Spaced(a + b) == Spaced(a) + Spaced(b)
    decreases |b|
  {
    if b == [] {
      assert a + b == a;
    } else {
      assert (a + b)[..|a + b| - 1] == a + b[..|b| - 1];
      SpacedAppend(a, b[..|b| - 1]);
    }
  }

  /** ` FROM x`, or nothing when `x` is absent or empty. */
  function Written(keyword: string, value: Option<string>): string {
    if value.GetOr("") != "" then " " + keyword + " " + value.GetOr("") else ""
  }

  lemma SpacedClause(keyword: string, value: Option<string>)
    ensures Spaced(Clause(keyword, value)) == Written(keyword, value)
  {
    if value.GetOr("") != "" {
      assert Clause(keyword, value)[..0] == [];
    }
  }

  /** ` LIMIT n`, or nothing when the limit is absent or zero. */
  function WrittenLimit(limit: Option<int>): string {
    if limit.GetOr(0) != 0 then " LIMIT " + IntToString(limit.GetOr(0)) else ""
  }

  lemma SpacedLimit(limit: Option<int>)
    ensures Spaced(LimitClause(limit)) == WrittenLimit(limit)
  {
    if limit.GetOr(0) != 0 {
      assert LimitClause(limit)[..0] == [];
    }
  }

  /** Everything after the head of a query. */
  function ClauseText(from: Option<string>, where: Option<string>, sort: Option<string>, limit: Option<int>): string {
    Written("FROM", from) + Written("WHERE", where) + Written("SORT", sort) + WrittenLimit(limit)
  }

  lemma SpacedClauses(from: Option<string>, where: Option<string>, sort: Option<string>, limit: Option<int>)
    ensures Spaced(Clauses(from, where, sort, limit)) == ClauseText(from, where, sort, limit)
  {
    var a, b, c, d := Clause("FROM", from), Clause("WHERE", where), Clause("SORT", sort), LimitClause(limit);
    SpacedAppend(a + b + c, d);
    SpacedAppend(a + b, c);
    SpacedAppend(a, b);
    SpacedClause("FROM", from);
    SpacedClause("WHERE", where);
    SpacedClause("SORT", sort);
    SpacedLimit(limit);
  }

  /** The query text in one piece: the head, then ` FROM`, ` WHERE`,
      ` SORT` and ` LIMIT` for each clause that is given, in that order. */
  lemma BuildDqlTableQueryText(fields: seq<string>, from: Option<string>, where: Option<string>,
                               sort: Option<string>, limit: Option<int>)
    requires fields != []
    ensures BuildDqlTableQuery(fields, from, where, sort, limit).value ==
      "TABLE " + JoinFields(fields) + ClauseText(from, where, sort, limit)
  {
    var head := "TABLE " + JoinFields(fields);
    SpaceJoinLead(head, Clauses(from, where, sort, limit));
    SpacedClauses(from, where, sort, limit);
  }

  /** The list query is the table query of the single field `file.name`. */
  lemma ListIsTable(from: Option<string>, where: Option<string>, sort: Option<string>, limit: Option<int>)
    ensures BuildDqlListQuery(from, where, sort, limit) == BuildDqlTableQuery(["file.name"], from, where, sort, limit).value
  {
    assert "TABLE " + JoinFields(["file.name"]) == "TABLE file.name";
  }

  /** An empty clause and a zero limit are the same as leaving them out. */
  lemma EmptyClausesIgnored(fields: seq<string>)
    requires fields != []
    ensures BuildDqlTableQuery(fields, Some(""), Some(""), Some(""), Some(0))
         == BuildDqlTableQuery(fields, None, None, None, None)
         == Success("TABLE " + JoinFields(fields))
  {
    BuildDqlTableQueryText(fields, None, None, None, None);
  }

  lemma ExampleParts()
    ensures ["TABLE " + JoinFields(["file.name", "status"])] + Clauses(Some("#project"), None, None, None)
         == ["TABLE file.name, status", "FROM #project"]
  {
    var fields := ["file.name", "status"];
    assert fields[..1] == ["file.name"];
    assert "file.name" + ", " + "status" == "file.name, status";
    assert "TABLE " + JoinFields(fields) == "TABLE file.name, status";
    assert "FROM" + " " + "#project" == "FROM #project";
    assert Clause("WHERE", None) == Clause("SORT", None) == LimitClause(None) == [];
  }

  lemma ExampleJoin()
    ensures SpaceJoin(["TABLE file.name, status", "FROM #project"]) == "TABLE file.name, status FROM #project"
  {
    var parts := ["TABLE file.name, status", "FROM #project"];
    assert parts[..1] == ["TABLE file.name, status"];
    assert SpaceJoin(parts) == "TABLE file.name, status" + " " + "FROM #project";
  }

  /** The example the builder documents. */
  lemma TableQueryExample()
    ensures BuildDqlTableQuery(["file.name", "status"], Some("#project"), None, None, None)
         == Success("TABLE file.name, status FROM #project")
  {
    ExampleParts();
    ExampleJoin();
  }

  /** Stripping keeps a prefix that neither starts nor ends with
      whitespace. */
  lemma StripKeepsPrefix(p: string, s: string)
    requires IsPrefix(p, s) && p != [] && !IsSpace(p[0]) && !IsSpace(p[|p| - 1])
    ensures IsPrefix(p, Strip(s))
  {
    assert LStrip(s) == s;
    var r := RStrip(s);
    assert |r| >= |p|;
    assert r[..|p|] == s[..|r|][..|p|];
  }

  /** A query that starts with `TABLE` is valid. */
  lemma TableHeadValid(q: string)
    requires IsPrefix("TABLE", q)
    ensures ValidateDqlQuery(q)
  {
    StripKeepsPrefix("TABLE", q);
    var p := Strip(q);
    forall i | 0 <= i < 5
      ensures AsciiUpper(p[i]) == "TABLE"[i]
    {
      assert p[i] == p[..5][i];
    }
    ValidateDqlQueryMeaning(q);
  }

  /** A space-joined query whose head starts with `TABLE` is valid. */
  lemma JoinedValid(head: string, rest: seq<string>)
    requires IsPrefix("TABLE", head)
    ensures ValidateDqlQuery(SpaceJoin([head] + rest))
  {
    var q := SpaceJoin([head] + rest);
    SpaceJoinLead(head, rest);
    PrefixTransitive("TABLE", head, q);
    TableHeadValid(q);
  }

  /** A head `TABLE x` starts with `TABLE`. */
  lemma TableHead(x: string)
    ensures IsPrefix("TABLE", "TABLE " + x)
  {
    assert ("TABLE " + x)[..5] == "TABLE";
  }

  lemma TableQueryValid(fields: seq<string>, rest: seq<string>)
    ensures ValidateDqlQuery(SpaceJoin(["TABLE " + JoinFields(fields)] + rest))
  {
    TableHead(JoinFields(fields));
    JoinedValid("TABLE " + JoinFields(fields), rest);
  }

  lemma ListQueryValid(rest: seq<string>)
    ensures ValidateDqlQuery(SpaceJoin(["TABLE file.name"] + rest))
  {
    TableHead("file.name");
    assert "TABLE " + "file.name" == "TABLE file.name";
    JoinedValid("TABLE file.name", rest);
  }

  /** Every query the builders make passes `validate_dql_query`. */
  lemma BuiltQueriesValid(fields: seq<string>, from: Option<string>, where: Option<string>,
                          sort: Option<string>, limit: Option<int>)
    requires fields != []
    ensures ValidateDqlQuery(BuildDqlTableQuery(fields, from, where, sort, limit).value)
    ensures ValidateDqlQuery(BuildDqlListQuery(from, where, sort, limit))
  {
    var rest := Clauses(from, where, sort, limit);
    TableQueryValid(fields, rest);
    ListQueryValid(rest);
  }

  /** `execute_dataview_query_api_tool` refuses a query that does not
      validate before anything is sent. */
  function CheckQuery(query: string): (r: Result<string, string>)
    ensures r.Success? <==> ValidateDqlQuery(query)
    ensures r.Success? ==> r.value == query
  {
    if ValidateDqlQuery(query) then Success(query)
    else Failure("Invalid DQL query syntax: " + query
                 + "\nNote: The Obsidian Local REST API currently ONLY supports TABLE queries.")
  }

  /** `list_from_tag_api_tool` makes sure the tag has a `#` in front. */
  function NormalizeTag(tag: string): string {
    if StartsWith(tag, "#") then tag else "#" + tag
  }

  /** The normalised tag is a `#` followed by the tag without its own
      leading `#`, if it had one; normalising twice changes nothing. */
  lemma NormalizeTagSpec(tag: string)
    ensures var r := NormalizeTag(tag);
      && r != [] && r[0] == '#'
      && r[1..] == (if tag != [] && tag[0] == '#' then tag[1..] else tag)
      && NormalizeTag(r) == r
  {
    if tag != [] && tag[0] == '#' {
      assert tag[..1] == "#";
    }
  }

  /** The tag and the query `list_from_tag_api_tool` reports. */
  function ListFromTagQuery(tag: string, where: Option<string>, sort: Option<string>, limit: Option<int>): (string, string) {
    var t := NormalizeTag(tag);
    (t, BuildDqlListQuery(Some(t), where, sort, limit))
  }

  /** A space-joined query starts with its first two parts. */
  lemma JoinedFirstTwo(head: string, parts: seq<string>)
    requires parts != []
    ensures IsPrefix(head + " " + parts[0], SpaceJoin([head] + parts))
  {
    var first, rest := parts[0], parts[1..];
    assert parts == [first] + rest;
    SpaceJoinLead(head, parts);
    SpacedAppend([first], rest);
    assert Spaced([first]) == " " + first by {
      assert [first][..0] == [];
    }
    var s := Spaced(rest);
    assert head + (" " + first + s) == (head + " " + first) + s;
  }

  /** A list query over a non-empty source starts `TABLE file.name FROM`
      that source. */
  lemma ListFromHead(from: string, where: Option<string>, sort: Option<string>, limit: Option<int>)
    requires from != ""
    ensures IsPrefix("TABLE file.name FROM " + from, BuildDqlListQuery(Some(from), where, sort, limit))
  {
    var parts := Clauses(Some(from), where, sort, limit);
    assert "FROM" + " " + from == "FROM " + from;
    assert parts[0] == "FROM " + from;
    JoinedFirstTwo("TABLE file.name", parts);
    assert "TABLE file.name" + " " + ("FROM " + from) == "TABLE file.name FROM " + from;
  }

  /** A tag asks for the same query with or without its `#`, and the query
      selects from that tag. */
  lemma ListFromTagSpec(name: string, where: Option<string>, sort: Option<string>, limit: Option<int>)
    requires name == [] || name[0] != '#'
    ensures ListFromTagQuery(name, where, sort, limit) == ListFromTagQuery("#" + name, where, sort, limit)
    ensures IsPrefix("TABLE file.name FROM #" + name, ListFromTagQuery(name, where, sort, limit).1)
  {
    var t := "#" + name;
    assert t[..1] == "#";
    assert NormalizeTag(t) == t;
    assert NormalizeTag(name) == t;
    ListFromHead(t, where, sort, limit);
  }

  /** The query `list_from_folder_api_tool` sends: the folder in double
      quotes. */
  function ListFromFolderQuery(folder: string, where: Option<string>, sort: Option<string>, limit: Option<int>): string {
    BuildDqlListQuery(Some("\"" + folder + "\""), where, sort, limit)
  }

  lemma ListFromFolderSpec(folder: string, where: Option<string>, sort: Option<string>, limit: Option<int>)
    ensures IsPrefix("TABLE file.name FROM \"" + folder + "\"", ListFromFolderQuery(folder, where, sort, limit))
  {
    ListFromHead("\"" + folder + "\"", where, sort, limit);
  }
}
