/** Building the statements that create and grant a user, with placeholders and arguments kept apart. */
module SqlBuilder {
  import opened Common
  import opened Escaping

  datatype Arg = Text(s: string) | Number(n: int)

  /** The text sent, with a question mark for each variable, and the arguments by position. */
  datatype Query = Query(text: string, args: seq<Arg>)

  datatype Permission = Permission(schema: string, tables: seq<string>, permissions: seq<string>)

  /** A resource limit: its name and the value it has as a 64-bit integer. */
  datatype Limit = Limit(key: string, value: int)

  /** What a statement means: literal characters, and values in the places meant for them. */
  datatype Token = Ch(c: char) | Val(a: Arg)

  type Tokens = seq<Token>

  /* ---- tokens, and what is sent for them ---- */

  function CharOf(t: Token): char {
    if t.Val? then '?' else t.c
  }

  function Lit(s: string): (r: Tokens)
    ensures |r| == |s| && forall i :: 0 <= i < |s| ==> r[i] == Ch(s[i])
  {
    seq(|s|, i requires 0 <= i < |s| => Ch(s[i]))
  }

  function TextOf(ts: Tokens): (r: string)
    ensures |r| == |ts| && forall i :: 0 <= i < |ts| ==> r[i] == CharOf(ts[i])
  {
    seq(|ts|, i requires 0 <= i < |ts| => CharOf(ts[i]))
  }

  function ArgsOf(ts: Tokens): seq<Arg> {
    if ts == [] then [] else (if ts[0].Val? then [ts[0].a] else []) + ArgsOf(ts[1..])
  }

  lemma {:induction false} ArgsOfConcat(a: Tokens, b: Tokens)
    ensures ArgsOf(a + b) == ArgsOf(a) + ArgsOf(b)
  {
    if a == [] {
      assert a + b == b;
    } else {
      var head := if a[0].Val? then [a[0].a] else [];
      assert (a + b)[0] == a[0] && (a + b)[1..] == a[1..] + b;
      ArgsOfConcat(a[1..], b);
      assert ArgsOf(a + b) == head + (ArgsOf(a[1..]) + ArgsOf(b));
    }
  }

  lemma {:induction false} ArgsOfLit(s: string)
    ensures ArgsOf(Lit(s)) == []
  {
    if s != [] {
      assert Lit(s)[1..] == Lit(s[1..]);
      ArgsOfLit(s[1..]);
    }
  }

  /** The query sends these tokens. */
  predicate Sends(text: string, args: seq<Arg>, ts: Tokens) {
    text == TextOf(ts) && args == ArgsOf(ts)
  }

  predicate Realises(q: Query, ts: Tokens) {
    Sends(q.text, q.args, ts)
  }

  lemma SendsLit(text: string, args: seq<Arg>, ts: Tokens, s: string)
    requires Sends(text, args, ts)
    ensures Sends(text + s, args, ts + Lit(s))
  {
    ArgsOfLit(s);
    ArgsOfConcat(ts, Lit(s));
    assert text + s == TextOf(ts + Lit(s));
  }

  lemma SendsVal(text: string, args: seq<Arg>, ts: Tokens, a: Arg)
    requires Sends(text, args, ts)
    ensures Sends(text + "?", args + [a], ts + [Val(a)])
  {
    ArgsOfConcat(ts, [Val(a)]);
    assert ArgsOf([Val(a)]) == [a] + ArgsOf([]);
    assert text + "?" == TextOf(ts + [Val(a)]);
  }

  lemma SendsBoth(t1: string, a1: seq<Arg>, ts1: Tokens, t2: string, a2: seq<Arg>, ts2: Tokens)
    requires Sends(t1, a1, ts1) && Sends(t2, a2, ts2)
    ensures Sends(t1 + t2, a1 + a2, ts1 + ts2)
  {
    ArgsOfConcat(ts1, ts2);
    assert t1 + t2 == TextOf(ts1 + ts2);
  }

  /* ---- how a driver binds arguments ---- */

  /** The server side of the contract: each question mark takes the next argument, and none is left over. */
  function Bound(text: string, args: seq<Arg>): Option<Tokens> {
    if text == [] then if args == [] then Some([]) else None
    else if text[0] == '?' && args == [] then None
    else
      var rest := Bound(text[1..], if text[0] == '?' then args[1..] else args);
      if rest.None? then None else Some([if text[0] == '?' then Val(args[0]) else Ch(text[0])] + rest.value)
  }

  /** No literal character is a question mark. */
  predicate Clean(ts: Tokens) {
    Ch('?') !in ts
  }

  function Marks(text: string): nat {
    if text == [] then 0 else (if text[0] == '?' then 1 else 0) + Marks(text[1..])
  }

  lemma {:induction false} BoundCounts(text: string, args: seq<Arg>)
    requires Bound(text, args).Some?
    ensures Marks(text) == |args|
  {
    if text != [] { BoundCounts(text[1..], if text[0] == '?' then args[1..] else args); }
  }

  lemma {:induction false} MarksAndArgs(ts: Tokens)
    ensures Marks(TextOf(ts)) >= |ArgsOf(ts)|
    ensures Marks(TextOf(ts)) == |ArgsOf(ts)| <==> Clean(ts)
  {
    if ts != [] {
      assert TextOf(ts)[1..] == TextOf(ts[1..]);
      MarksAndArgs(ts[1..]);
      assert ts == [ts[0]] + ts[1..];
    }
  }

  lemma {:induction false} CleanIsBound(ts: Tokens)
    requires Clean(ts)
    ensures Bound(TextOf(ts), ArgsOf(ts)) == Some(ts)
  {
    if ts != [] {
      assert TextOf(ts)[1..] == TextOf(ts[1..]);
      assert ts == [ts[0]] + ts[1..];
      CleanIsBound(ts[1..]);
      if ts[0].Val? {
        assert ArgsOf(ts)[1..] == ArgsOf(ts[1..]);
      } else {
        assert ts[0] == Ch(ts[0].c) && ts[0] in ts;
        assert ArgsOf(ts) == ArgsOf(ts[1..]);
      }
    }
  }

  /** Every placeholder is bound to the value meant for it, with none missing and none left over, if and
      only if no literal character is a question mark. */
  lemma BoundExactly(ts: Tokens)
    ensures Bound(TextOf(ts), ArgsOf(ts)) == Some(ts) <==> Clean(ts)
    ensures Bound(TextOf(ts), ArgsOf(ts)).Some? <==> Clean(ts)
    ensures Marks(TextOf(ts)) == |ArgsOf(ts)| <==> Clean(ts)
  {
    MarksAndArgs(ts);
    if Clean(ts) {
      CleanIsBound(ts);
    } else if Bound(TextOf(ts), ArgsOf(ts)).Some? {
      BoundCounts(TextOf(ts), ArgsOf(ts));
    }
  }

  /* ---- queries ---- */

  predicate EndsIn(s: string, c: char) {
    s != [] && s[|s| - 1] == c
  }

  function Finished(text: string): string {
    if EndsIn(text, ';') then text else text + ";"
  }

  /** The program panics on an empty text: no query. */
  method NewQuery(text: string, args: seq<Arg>) returns (q: Option<Query>)
    ensures q == if text == "" then None else Some(Query(Finished(text), args))
    ensures q.Some? ==> text <= q.value.text && |q.value.text| <= |text| + 1 && EndsIn(q.value.text, ';')
  {
    if text == "" { return None; }
    var t := text;
    if !EndsIn(t, ';') { t := t + ";"; }
    return Some(Query(t, args));
  }

  function Concatenated(queries: seq<Query>): Query {
    if queries == [] then Query("", [])
    else
      var before, last := Concatenated(queries[..|queries| - 1]), queries[|queries| - 1];
      Query((if before.text != "" && !EndsIn(before.text, '\n') then before.text + "\n" else before.text) + last.text,
            before.args + last.args)
  }

  method ConcatenateQueries(queries: seq<Query>) returns (q: Option<Query>)
    ensures var c := Concatenated(queries);
            q == if c.text == "" then None else Some(Query(Finished(c.text), c.args))
  {
    var args: seq<Arg> := [];
    var query := "";
    for k := 0 to |queries|
      invariant Query(query, args) == Concatenated(queries[..k])
    {
      assert queries[..k + 1][..k] == queries[..k];
      if query != "" {
        if !EndsIn(query, '\n') { query := query + "\n"; }
      }
      query := query + queries[k].text;
      args := args + queries[k].args;
    }
    assert queries[..|queries|] == queries;
    q := NewQuery(query, args);
  }

  /** A statement with its final semicolon. */
  function Terminated(ts: Tokens): Tokens {
    if ts != [] && ts[|ts| - 1] == Ch(';') then ts else ts + [Ch(';')]
  }

  predicate IsLine(ts: Tokens) {
    ts != [] && ts[|ts| - 1] == Ch(';')
  }

  /** The statements of `lines`, each on a line of its own. */
  function Joined(lines: seq<Tokens>): Tokens {
    if lines == [] then []
    else if |lines| == 1 then lines[0]
    else Joined(lines[..|lines| - 1]) + [Ch('\n')] + lines[|lines| - 1]
  }

  lemma FinishedSends(text: string, args: seq<Arg>, ts: Tokens)
    requires Sends(text, args, ts)
    ensures Sends(Finished(text), args, Terminated(ts)) && IsLine(Terminated(ts))
  {
    if EndsIn(text, ';') {
      assert CharOf(ts[|ts| - 1]) == ';';
    } else {
      assert ts == [] || text[|ts| - 1] == CharOf(ts[|ts| - 1]);
      assert Lit(";") == [Ch(';')];
      SendsLit(text, args, ts, ";");
    }
  }

  lemma {:induction false} JoinedEnds(lines: seq<Tokens>)
    requires lines != [] && forall i :: 0 <= i < |lines| ==> IsLine(lines[i])
    ensures IsLine(Joined(lines))
  {
    if |lines| > 1 { assert IsLine(lines[|lines| - 1]); }
  }

  ghost predicate AllRealise(queries: seq<Query>, lines: seq<Tokens>) {
    |queries| == |lines| && forall i :: 0 <= i < |lines| ==> IsLine(lines[i]) && Realises(queries[i], lines[i])
  }

  /** A query after one that ends with a semicolon goes on the next line. */
  lemma NextLine(before: Query, ts: Tokens, last: Query, line: Tokens)
    requires Realises(before, ts) && Realises(last, line) && EndsIn(last.text, ';')
    ensures var q := Query(before.text + "\n" + last.text, before.args + last.args);
            Realises(q, ts + [Ch('\n')] + line) && EndsIn(q.text, ';')
  {
    assert Lit("\n") == [Ch('\n')];
    SendsLit(before.text, before.args, ts, "\n");
    SendsBoth(before.text + "\n", before.args, ts + [Ch('\n')], last.text, last.args, line);
  }

  lemma LineEnds(q: Query, line: Tokens)
    requires Realises(q, line) && IsLine(line)
    ensures EndsIn(q.text, ';')
  {
  }

  lemma ConcatenatedSnoc(queries: seq<Query>)
    requires queries != []
    ensures var before, last := Concatenated(queries[..|queries| - 1]), queries[|queries| - 1];
            && (|queries| == 1 ==> Concatenated(queries) == last)
            && (EndsIn(before.text, ';') ==>
                  Concatenated(queries) == Query(before.text + "\n" + last.text, before.args + last.args))
  {
    var before, last := Concatenated(queries[..|queries| - 1]), queries[|queries| - 1];
    if |queries| == 1 {
      assert queries[..0] == [] && "" + last.text == last.text && [] + last.args == last.args;
    }
  }

  /** Concatenating finished queries sends their statements line by line. */
  lemma {:induction false} ConcatenatedRealises(queries: seq<Query>, lines: seq<Tokens>)
    requires AllRealise(queries, lines)
    ensures Realises(Concatenated(queries), Joined(lines))
    ensures queries != [] ==> EndsIn(Concatenated(queries).text, ';')
  {
    if queries != [] {
      hide Concatenated, Realises, EndsIn, IsLine;
      var n := |queries| - 1;
      assert Realises(queries[n], lines[n]) && IsLine(lines[n]);
      LineEnds(queries[n], lines[n]);
      ConcatenatedSnoc(queries);
      if n > 0 {
        AllRealisePrefix(queries, lines, n);
        ConcatenatedRealises(queries[..n], lines[..n]);
        NextLine(Concatenated(queries[..n]), Joined(lines[..n]), queries[n], lines[n]);
      }
    } else {
      assert Realises(Query("", []), []);
    }
  }

  lemma AllRealisePrefix(queries: seq<Query>, lines: seq<Tokens>, n: nat)
    requires AllRealise(queries, lines) && n <= |queries|
    ensures AllRealise(queries[..n], lines[..n])
  {
  }

  /* ---- the statements for a user ---- */

  /** One account, with its password when there is one. */
  function Account(user: string, pwd: Option<string>, host: string): Tokens {
    Lit(" ") + [Val(Text(user))] + Lit("@") + [Val(Text(host))]
    + if pwd.Some? then Lit(" IDENTIFIED BY ") + [Val(Text(pwd.value))] else []
  }

  function Accounts(user: string, pwd: Option<string>, hosts: seq<string>): Tokens {
    if hosts == [] then []
    else
      var n := |hosts| - 1;
      Accounts(user, pwd, hosts[..n]) + (if n > 0 then Lit(",") else []) + Account(user, pwd, hosts[n])
  }

  function Limits(limits: seq<Limit>): Tokens {
    if limits == [] then []
    else
      var n := |limits| - 1;
      Limits(limits[..n]) + Lit(" " + Escaped(limits[n].key) + " ") + [Val(Number(limits[n].value))]
  }

  function CreateLine(user: string, pwd: string, hosts: seq<string>): Tokens {
    Terminated(Lit("CREATE USER IF NOT EXISTS") + Accounts(user, Some(pwd), hosts))
  }

  function AlterLine(user: string, pwd: string, hosts: seq<string>, limits: seq<Limit>): Tokens {
    Terminated(Lit("ALTER USER") + Accounts(user, Some(pwd), hosts)
               + (if limits != [] then Lit(" WITH") else []) + Limits(limits))
  }

  function EscapedAll(names: seq<string>): (r: seq<string>)
    ensures |r| == |names|
  {
    seq(|names|, i requires 0 <= i < |names| => Escaped(names[i]))
  }

  function Join(parts: seq<string>, sep: string): string {
    if parts == [] then ""
    else if |parts| == 1 then parts[0]
    else Join(parts[..|parts| - 1], sep) + sep + parts[|parts| - 1]
  }

  function EscapeID(id: string): string {
    if id == "*" then id else "`" + Filter((c: char) => c != '`', id) + "`"
  }

  function GrantText(p: Permission, table: string): string {
    "GRANT " + Join(EscapedAll(p.permissions), ", ") + " ON " + EscapeID(p.schema) + "." + EscapeID(table) + " TO"
  }

  function GrantLine(p: Permission, table: string, user: string, hosts: seq<string>): Tokens {
    Terminated(Lit(GrantText(p, table)) + Accounts(user, None, hosts))
  }

  /** A grant line for each of these tables. */
  function TableLines(p: Permission, tables: seq<string>, user: string, hosts: seq<string>): seq<Tokens> {
    if tables == [] then []
    else TableLines(p, tables[..|tables| - 1], user, hosts) + [GrantLine(p, tables[|tables| - 1], user, hosts)]
  }

  function GrantLines(ps: seq<Permission>, user: string, hosts: seq<string>): seq<Tokens> {
    if ps == [] then []
    else GrantLines(ps[..|ps| - 1], user, hosts) + TableLines(ps[|ps| - 1], ps[|ps| - 1].tables, user, hosts)
  }

  /** What creating a user means: a transaction that creates it, alters it, and grants what is asked for. */
  function Intended(user: string, pwd: string, hosts: seq<string>, ps: seq<Permission>,
                    limits: seq<Limit>): seq<Tokens> {
    [Lit("BEGIN;"), CreateLine(user, pwd, hosts), AlterLine(user, pwd, hosts, limits)]
    + GrantLines(ps, user, hosts) + [Lit("COMMIT;")]
  }

  lemma AccountText(user: string, host: string)
    ensures Sends(" ?@?", [Text(user), Text(host)], Lit(" ") + [Val(Text(user))] + Lit("@") + [Val(Text(host))])
  {
    var t1, t3 := Lit(" "), Lit(" ") + [Val(Text(user))] + Lit("@");
    ArgsOfLit(" ");
    assert " " == TextOf(t1);
    SendsVal(" ", [], t1, Text(user));
    SendsLit(" ?", [Text(user)], t1 + [Val(Text(user))], "@");
    SendsVal(" ?@", [Text(user)], t3, Text(host));
    assert [Text(user)] + [Text(host)] == [Text(user), Text(host)];
  }

  lemma PasswordText(pwd: string)
    ensures Sends(" IDENTIFIED BY ?", [Text(pwd)], Lit(" IDENTIFIED BY ") + [Val(Text(pwd))])
  {
    ArgsOfLit(" IDENTIFIED BY ");
    assert " IDENTIFIED BY " == TextOf(Lit(" IDENTIFIED BY "));
    SendsVal(" IDENTIFIED BY ", [], Lit(" IDENTIFIED BY "), Text(pwd));
    assert " IDENTIFIED BY " + "?" == " IDENTIFIED BY ?";
  }

  lemma AccountSends(text: string, args: seq<Arg>, ts: Tokens, user: string, pwd: Option<string>, host: string)
    requires Sends(text, args, ts)
    ensures Sends(text + (if pwd.Some? then " ?@? IDENTIFIED BY ?" else " ?@?"),
                  args + (if pwd.Some? then [Text(user), Text(host), Text(pwd.value)] else [Text(user), Text(host)]),
                  ts + Account(user, pwd, host))
  {
    var named := Lit(" ") + [Val(Text(user))] + Lit("@") + [Val(Text(host))];
    AccountText(user, host);
    if pwd.Some? {
      PasswordText(pwd.value);
      SendsBoth(" ?@?", [Text(user), Text(host)], named,
                " IDENTIFIED BY ?", [Text(pwd.value)], Lit(" IDENTIFIED BY ") + [Val(Text(pwd.value))]);
      assert " ?@?" + " IDENTIFIED BY ?" == " ?@? IDENTIFIED BY ?";
      assert [Text(user), Text(host)] + [Text(pwd.value)] == [Text(user), Text(host), Text(pwd.value)];
      SendsBoth(text, args, ts, " ?@? IDENTIFIED BY ?", [Text(user), Text(host), Text(pwd.value)],
                Account(user, pwd, host));
    } else {
      assert named + [] == named;
      SendsBoth(text, args, ts, " ?@?", [Text(user), Text(host)], Account(user, pwd, host));
    }
  }

  method GetUsersIdentification(user: string, pwd: Option<string>, hosts: seq<string>)
    returns (ids: string, args: seq<Arg>)
    ensures Sends(ids, args, Accounts(user, pwd, hosts))
  {
    ids, args := "", [];
    for i := 0 to |hosts|
      invariant Sends(ids, args, Accounts(user, pwd, hosts[..i]))
    {
      assert hosts[..i + 1][..i] == hosts[..i];
      ghost var before := Accounts(user, pwd, hosts[..i]);
      ghost var ts := before + if i > 0 then Lit(",") else [];
      if i > 0 {
        SendsLit(ids, args, before, ",");
        ids := ids + ",";
      }
      assert Sends(ids, args, ts);
      AccountSends(ids, args, ts, user, pwd, hosts[i]);
      if pwd.Some? {
        ids := ids + " ?@? IDENTIFIED BY ?";
        args := args + [Text(user), Text(hosts[i]), Text(pwd.value)];
      } else {
        ids := ids + " ?@?";
        args := args + [Text(user), Text(hosts[i])];
      }
    }
    assert hosts[..|hosts|] == hosts;
  }

  method GetCreateUserQuery(user: string, pwd: string, hosts: seq<string>) returns (q: Query)
    ensures Realises(q, CreateLine(user, pwd, hosts)) && IsLine(CreateLine(user, pwd, hosts))
  {
    var ids, args := GetUsersIdentification(user, Some(pwd), hosts);
    var head := "CREATE USER IF NOT EXISTS";
    ArgsOfLit(head);
    SendsBoth(head, [], Lit(head), ids, args, Accounts(user, Some(pwd), hosts));
    FinishedSends(head + ids, [] + args, Lit(head) + Accounts(user, Some(pwd), hosts));
    var r := NewQuery(head + ids, args);
    q := r.value;
  }

  method GetAlterUserQuery(user: string, pwd: string, hosts: seq<string>, limits: seq<Limit>) returns (q: Query)
    ensures Realises(q, AlterLine(user, pwd, hosts, limits)) && IsLine(AlterLine(user, pwd, hosts, limits))
  {
    var text := "ALTER USER";
    var ids, args := GetUsersIdentification(user, Some(pwd), hosts);
    ArgsOfLit(text);
    ghost var ts := Lit(text) + Accounts(user, Some(pwd), hosts);
    SendsBoth(text, [], Lit(text), ids, args, Accounts(user, Some(pwd), hosts));
    assert [] + args == args;
    text := text + ids;
    if limits != [] {
      SendsLit(text, args, ts, " WITH");
      text := text + " WITH";
      ts := ts + Lit(" WITH");
    }
    text, args := AppendLimits(text, args, ts, limits);
    ghost var all := Lit("ALTER USER") + Accounts(user, Some(pwd), hosts) + (if limits != [] then Lit(" WITH") else []);
    assert ts == all;
    FinishedSends(text, args, ts + Limits(limits));
    assert text != "" by { assert |text| == |ts + Limits(limits)| && |ts| >= |Lit("ALTER USER")|; }
    var r := NewQuery(text, args);
    q := r.value;
  }

  lemma LimitSends(t: string, a: seq<Arg>, ts: Tokens, l: Limit)
    requires Sends(t, a, ts)
    ensures Sends(t + (" " + Escaped(l.key) + " ") + "?", a + [Number(l.value)],
                  ts + Lit(" " + Escaped(l.key) + " ") + [Val(Number(l.value))])
  {
    var key := " " + Escaped(l.key) + " ";
    SendsLit(t, a, ts, key);
    SendsVal(t + key, a, ts + Lit(key), Number(l.value));
  }

  lemma LimitsSnoc(ts: Tokens, limits: seq<Limit>, l: Limit)
    ensures ts + Limits(limits + [l]) == ts + Limits(limits) + Lit(" " + Escaped(l.key) + " ") + [Val(Number(l.value))]
  {
    assert (limits + [l])[..|limits|] == limits;
  }

  method AppendLimits(text: string, args: seq<Arg>, ghost ts: Tokens, limits: seq<Limit>)
    returns (t: string, a: seq<Arg>)
    requires Sends(text, args, ts)
    ensures Sends(t, a, ts + Limits(limits))
  {
    t, a := text, args;
    assert ts + Limits([]) == ts;
    for i := 0 to |limits|
      invariant Sends(t, a, ts + Limits(limits[..i]))
    {
      assert limits[..i + 1] == limits[..i] + [limits[i]];
      var key := Escape(limits[i].key);
      LimitSends(t, a, ts + Limits(limits[..i]), limits[i]);
      LimitsSnoc(ts, limits[..i], limits[i]);
      t := t + (" " + key + " ") + "?";
      a := a + [Number(limits[i].value)];
    }
    assert limits[..|limits|] == limits;
  }

  method JoinStrings(parts: seq<string>, sep: string) returns (r: string)
    ensures r == Join(parts, sep)
  {
    r := "";
    for i := 0 to |parts|
      invariant r == Join(parts[..i], sep)
    {
      assert parts[..i + 1][..i] == parts[..i];
      r := if i == 0 then parts[i] else r + sep + parts[i];
    }
    assert parts[..|parts|] == parts;
  }

  method GetGrantQuery(p: Permission, table: string, user: string, hosts: seq<string>) returns (q: Query)
    ensures Realises(q, GrantLine(p, table, user, hosts)) && IsLine(GrantLine(p, table, user, hosts))
  {
    var escPerms: seq<string> := [];
    for i := 0 to |p.permissions|
      invariant escPerms == EscapedAll(p.permissions[..i])
    {
      var e := Escape(p.permissions[i]);
      escPerms := escPerms + [e];
    }
    assert p.permissions[..|p.permissions|] == p.permissions;
    var joined := JoinStrings(escPerms, ", ");
    var ids, args := GetUsersIdentification(user, None, hosts);
    var query := "GRANT " + joined + " ON " + EscapeID(p.schema) + "." + EscapeID(table) + " TO";
    ArgsOfLit(query);
    SendsBoth(query, [], Lit(query), ids, args, Accounts(user, None, hosts));
    FinishedSends(query + ids, [] + args, Lit(query) + Accounts(user, None, hosts));
    assert query != "" by { assert |query| >= |"GRANT "|; }
    var r := NewQuery(query + ids, args);
    q := r.value;
  }

  method PermissionsToQuery(ps: seq<Permission>, user: string, hosts: seq<string>) returns (q: Option<Query>)
    ensures var lines := GrantLines(ps, user, hosts);
            if lines == [] then q == None else q.Some? && Realises(q.value, Joined(lines)) && IsLine(Joined(lines))
  {
    var permQueries: seq<Query> := [];
    for k := 0 to |ps|
      invariant AllRealise(permQueries, GrantLines(ps[..k], user, hosts))
    {
      assert ps[..k + 1][..k] == ps[..k];
      permQueries := AppendGrants(permQueries, GrantLines(ps[..k], user, hosts), ps[k], user, hosts);
    }
    assert ps[..|ps|] == ps;
    q := ConcatenateLines(permQueries, GrantLines(ps, user, hosts));
  }

  lemma AllRealiseSnoc(queries: seq<Query>, lines: seq<Tokens>, q: Query, line: Tokens)
    requires AllRealise(queries, lines) && Realises(q, line) && IsLine(line)
    ensures AllRealise(queries + [q], lines + [line])
  {
  }

  lemma TableLinesSnoc(lines: seq<Tokens>, p: Permission, tables: seq<string>, user: string, hosts: seq<string>)
    requires tables != []
    ensures var n := |tables| - 1;
            lines + TableLines(p, tables, user, hosts)
            == lines + TableLines(p, tables[..n], user, hosts) + [GrantLine(p, tables[n], user, hosts)]
  {
  }

  method AppendGrants(queries: seq<Query>, ghost lines: seq<Tokens>, p: Permission, user: string, hosts: seq<string>)
    returns (r: seq<Query>)
    requires AllRealise(queries, lines)
    ensures AllRealise(r, lines + TableLines(p, p.tables, user, hosts))
  {
    hide GrantLine;
    r := queries;
    for j := 0 to |p.tables|
      invariant AllRealise(r, lines + TableLines(p, p.tables[..j], user, hosts))
    {
      assert p.tables[..j + 1][..j] == p.tables[..j];
      var grant := GetGrantQuery(p, p.tables[j], user, hosts);
      AllRealiseSnoc(r, lines + TableLines(p, p.tables[..j], user, hosts), grant,
                     GrantLine(p, p.tables[j], user, hosts));
      TableLinesSnoc(lines, p, p.tables[..j + 1], user, hosts);
      r := r + [grant];
    }
    assert p.tables[..|p.tables|] == p.tables;
  }

  /** Concatenation of finished queries, with the statements they stand for. */
  method ConcatenateLines(queries: seq<Query>, ghost lines: seq<Tokens>) returns (q: Option<Query>)
    requires AllRealise(queries, lines)
    ensures if queries == [] then q == None else q.Some? && Realises(q.value, Joined(lines)) && IsLine(Joined(lines))
  {
    ConcatenatedRealises(queries, lines);
    q := ConcatenateQueries(queries);
    if queries != [] { JoinedEnds(lines); }
  }

  /** The queries between BEGIN and COMMIT. */
  method BuildAtomicQuery(queries: seq<Query>, ghost lines: seq<Tokens>) returns (q: Query)
    requires AllRealise(queries, lines)
    ensures Realises(q, Joined([Lit("BEGIN;")] + lines + [Lit("COMMIT;")]))
  {
    var b := NewQuery("BEGIN", []);
    var c := NewQuery("COMMIT", []);
    Delimiters();
    hide Finished, Realises, IsLine, Joined, Concatenated;
    AllRealiseAround(b.value, Lit("BEGIN;"), queries, lines, c.value, Lit("COMMIT;"));
    var r := ConcatenateLines([b.value] + queries + [c.value], [Lit("BEGIN;")] + lines + [Lit("COMMIT;")]);
    q := r.value;
  }

  /** The lines around a transaction. */
  lemma Delimiters()
    ensures Realises(Query(Finished("BEGIN"), []), Lit("BEGIN;")) && IsLine(Lit("BEGIN;"))
    ensures Realises(Query(Finished("COMMIT"), []), Lit("COMMIT;")) && IsLine(Lit("COMMIT;"))
  {
    ArgsOfLit("BEGIN;");
    ArgsOfLit("COMMIT;");
    assert "BEGIN" + ";" == "BEGIN;" && "COMMIT" + ";" == "COMMIT;";
  }

  lemma AllRealiseAround(b: Query, first: Tokens, queries: seq<Query>, lines: seq<Tokens>, c: Query, last: Tokens)
    requires Realises(b, first) && IsLine(first) && Realises(c, last) && IsLine(last)
    requires AllRealise(queries, lines)
    ensures AllRealise([b] + queries + [c], [first] + lines + [last])
  {
    hide Realises, IsLine;
  }

  /** What the program comes to: the query it sends, the error for a user without hosts, or the panic of a user
      with permissions but without tables. */
  datatype Built = Built(query: Query) | NoAllowedHosts | Panicked

  method CreateUserIfNotExists(user: string, pwd: string, hosts: seq<string>, ps: seq<Permission>, limits: seq<Limit>)
    returns (r: Built)
    ensures r.NoAllowedHosts? <==> hosts == []
    ensures r.Panicked? <==> hosts != [] && ps != [] && forall p :: p in ps ==> p.tables == []
    ensures r.Built? ==> Realises(r.query, Joined(Intended(user, pwd, hosts, ps, limits)))
  {
    hide CreateLine, AlterLine, GrantLine, Joined, Intended;
    if hosts == [] { return NoAllowedHosts; }
    var create := GetCreateUserQuery(user, pwd, hosts);
    var alter := GetAlterUserQuery(user, pwd, hosts, limits);
    var queries := [create, alter];
    ghost var grants := GrantLines(ps, user, hosts);
    ghost var lines := [CreateLine(user, pwd, hosts), AlterLine(user, pwd, hosts, limits)];
    assert AllRealise(queries, lines);
    NoTablesNoGrants(ps, user, hosts);
    if ps != [] {
      var granted := PermissionsToQuery(ps, user, hosts);
      if granted.None? { return Panicked; }
      AllRealiseSnoc(queries, lines, granted.value, Joined(grants));
      queries := queries + [granted.value];
    }
    IntendedNested(user, pwd, hosts, ps, limits);
    var query := BuildAtomicQuery(queries, lines + if grants == [] then [] else [Joined(grants)]);
    r := Built(query);
  }

  /** The grants, joined beforehand, end up on lines of their own. */
  lemma IntendedNested(user: string, pwd: string, hosts: seq<string>, ps: seq<Permission>, limits: seq<Limit>)
    ensures var grants := GrantLines(ps, user, hosts);
            var lines := [CreateLine(user, pwd, hosts), AlterLine(user, pwd, hosts, limits)];
            Joined([Lit("BEGIN;")] + (lines + if grants == [] then [] else [Joined(grants)]) + [Lit("COMMIT;")])
            == Joined(Intended(user, pwd, hosts, ps, limits))
  {
    hide CreateLine, AlterLine, GrantLine, Joined;
    var grants := GrantLines(ps, user, hosts);
    var begin, commit := Lit("BEGIN;"), Lit("COMMIT;");
    var create, alter := CreateLine(user, pwd, hosts), AlterLine(user, pwd, hosts, limits);
    assert [begin] + [create, alter] == [begin, create, alter];
    if grants == [] {
      assert [begin] + ([create, alter] + []) + [commit] == [begin, create, alter] + grants + [commit];
    } else {
      JoinedNested([begin, create, alter], grants, [commit]);
      assert [begin] + ([create, alter] + [Joined(grants)]) + [commit]
             == [begin, create, alter] + [Joined(grants)] + [commit];
    }
  }

  lemma {:induction false} NoTablesNoGrants(ps: seq<Permission>, user: string, hosts: seq<string>)
    ensures GrantLines(ps, user, hosts) == [] <==> forall p :: p in ps ==> p.tables == []
  {
    if ps != [] {
      var n := |ps| - 1;
      assert ps == ps[..n] + [ps[n]];
      NoTablesNoGrants(ps[..n], user, hosts);
    }
  }

  lemma {:induction false} JoinedConcat(a: seq<Tokens>, b: seq<Tokens>)
    requires a != [] && b != []
    ensures Joined(a + b) == Joined(a) + [Ch('\n')] + Joined(b)
  {
    var n := |b| - 1;
    assert (a + b)[..|a + b| - 1] == a + b[..n];
    if n == 0 {
      assert a + b[..0] == a;
    } else {
      JoinedConcat(a, b[..n]);
    }
  }

  /** Lines joined beforehand are still one line each. */
  lemma JoinedNested(a: seq<Tokens>, b: seq<Tokens>, c: seq<Tokens>)
    requires a != [] && b != [] && c != []
    ensures Joined(a + [Joined(b)] + c) == Joined(a + b + c)
  {
    JoinedConcat(a, [Joined(b)]);
    JoinedConcat(a + [Joined(b)], c);
    JoinedConcat(a, b);
    JoinedConcat(a + b, c);
  }

  /* ---- placeholders and arguments ---- */

  /** The number of tables granted on. */
  function Tables(ps: seq<Permission>): nat {
    if ps == [] then 0 else Tables(ps[..|ps| - 1]) + |ps[|ps| - 1].tables|
  }

  lemma TerminatedArgs(ts: Tokens)
    ensures ArgsOf(Terminated(ts)) == ArgsOf(ts)
  {
    ArgsOfConcat(ts, [Ch(';')]);
    assert ArgsOf([Ch(';')]) == [] + ArgsOf([]);
    assert ArgsOf(ts) + [] == ArgsOf(ts);
  }

  lemma {:induction false} AccountsArgs(user: string, pwd: Option<string>, hosts: seq<string>)
    ensures |ArgsOf(Accounts(user, pwd, hosts))| == (if pwd.Some? then 3 else 2) * |hosts|
  {
    if hosts != [] {
      var n := |hosts| - 1;
      AccountsArgs(user, pwd, hosts[..n]);
      var before := Accounts(user, pwd, hosts[..n]);
      ArgsOfLit(",");
      ArgsOfConcat(before, if n > 0 then Lit(",") else []);
      ArgsOfConcat(before + (if n > 0 then Lit(",") else []), Account(user, pwd, hosts[n]));
      assert Sends("", [], []);
      AccountSends("", [], [], user, pwd, hosts[n]);
      assert [] + Account(user, pwd, hosts[n]) == Account(user, pwd, hosts[n]);
    }
  }

  lemma {:induction false} LimitsArgs(limits: seq<Limit>)
    ensures |ArgsOf(Limits(limits))| == |limits|
  {
    if limits != [] {
      var n := |limits| - 1;
      LimitsArgs(limits[..n]);
      assert Sends(TextOf(Limits(limits[..n])), ArgsOf(Limits(limits[..n])), Limits(limits[..n]));
      LimitSends(TextOf(Limits(limits[..n])), ArgsOf(Limits(limits[..n])), Limits(limits[..n]), limits[n]);
    }
  }

  lemma GrantLineArgs(p: Permission, table: string, user: string, hosts: seq<string>)
    ensures |ArgsOf(GrantLine(p, table, user, hosts))| == 2 * |hosts|
  {
    var head := Lit(GrantText(p, table));
    TerminatedArgs(head + Accounts(user, None, hosts));
    ArgsOfConcat(head, Accounts(user, None, hosts));
    ArgsOfLit(GrantText(p, table));
    AccountsArgs(user, None, hosts);
  }

  /** The arguments of all lines together. */
  function ArgCount(lines: seq<Tokens>): nat {
    if lines == [] then 0 else ArgCount(lines[..|lines| - 1]) + |ArgsOf(lines[|lines| - 1])|
  }

  lemma {:induction false} ArgCountConcat(a: seq<Tokens>, b: seq<Tokens>)
    ensures ArgCount(a + b) == ArgCount(a) + ArgCount(b)
  {
    if b == [] {
      assert a + b == a;
    } else {
      assert (a + b)[..|a + b| - 1] == a + b[..|b| - 1];
      ArgCountConcat(a, b[..|b| - 1]);
    }
  }

  lemma {:induction false} JoinedArgs(lines: seq<Tokens>)
    ensures |ArgsOf(Joined(lines))| == ArgCount(lines)
  {
    if |lines| == 1 {
      assert lines[..0] == [];
      assert ArgCount(lines) == ArgCount([]) + |ArgsOf(lines[0])|;
    } else if lines != [] {
      var n := |lines| - 1;
      JoinedArgs(lines[..n]);
      ArgsOfConcat(Joined(lines[..n]), [Ch('\n')]);
      assert ArgsOf([Ch('\n')]) == [] + ArgsOf([]);
      ArgsOfConcat(Joined(lines[..n]) + [Ch('\n')], lines[n]);
    }
  }

  lemma ArgCountSnoc(lines: seq<Tokens>, line: Tokens)
    ensures ArgCount(lines + [line]) == ArgCount(lines) + |ArgsOf(line)|
  {
    assert (lines + [line])[..|lines|] == lines;
  }

  lemma Distribute(c: int, a: int, b: int)
    ensures c * (a + b) == c * a + c * b
  {
  }

  lemma {:induction false} TableLinesArgs(p: Permission, tables: seq<string>, user: string, hosts: seq<string>, c: nat)
    requires c == 2 * |hosts|
    ensures ArgCount(TableLines(p, tables, user, hosts)) == c * |tables|
  {
    if tables != [] {
      var n := |tables| - 1;
      TableLinesArgs(p, tables[..n], user, hosts, c);
      GrantLineArgs(p, tables[n], user, hosts);
      ArgCountSnoc(TableLines(p, tables[..n], user, hosts), GrantLine(p, tables[n], user, hosts));
      Distribute(c, n, 1);
    }
  }

  lemma GrantLinesSnoc(ps: seq<Permission>, user: string, hosts: seq<string>)
    requires ps != []
    ensures var n := |ps| - 1;
            && ArgCount(GrantLines(ps, user, hosts))
               == ArgCount(GrantLines(ps[..n], user, hosts)) + ArgCount(TableLines(ps[n], ps[n].tables, user, hosts))
            && Tables(ps) == Tables(ps[..n]) + |ps[n].tables|
  {
    var n := |ps| - 1;
    ArgCountConcat(GrantLines(ps[..n], user, hosts), TableLines(ps[n], ps[n].tables, user, hosts));
  }

  lemma Sum(c: nat, total: nat, before: nat, last: nat, x: nat, y: nat)
    requires total == before + last && before == c * x && last == c * y
    ensures total == c * (x + y)
  {
    Distribute(c, x, y);
  }

  lemma {:induction false} GrantLinesArgs(ps: seq<Permission>, user: string, hosts: seq<string>, c: nat)
    requires c == 2 * |hosts|
    ensures ArgCount(GrantLines(ps, user, hosts)) == c * Tables(ps)
  {
    hide GrantLine;
    if ps != [] {
      var n := |ps| - 1;
      GrantLinesArgs(ps[..n], user, hosts, c);
      TableLinesArgs(ps[n], ps[n].tables, user, hosts, c);
      GrantLinesSnoc(ps, user, hosts);
      Sum(c, ArgCount(GrantLines(ps, user, hosts)), ArgCount(GrantLines(ps[..n], user, hosts)),
          ArgCount(TableLines(ps[n], ps[n].tables, user, hosts)), Tables(ps[..n]), |ps[n].tables|);
    }
  }

  lemma CreateAndAlterArgs(user: string, pwd: string, hosts: seq<string>, limits: seq<Limit>)
    ensures |ArgsOf(CreateLine(user, pwd, hosts))| == 3 * |hosts|
    ensures |ArgsOf(AlterLine(user, pwd, hosts, limits))| == 3 * |hosts| + |limits|
  {
    var accounts := Accounts(user, Some(pwd), hosts);
    AccountsArgs(user, Some(pwd), hosts);
    LimitsArgs(limits);
    var create, alter := Lit("CREATE USER IF NOT EXISTS"), Lit("ALTER USER");
    var with := if limits != [] then Lit(" WITH") else [];
    ArgsOfLit("CREATE USER IF NOT EXISTS");
    ArgsOfLit("ALTER USER");
    ArgsOfLit(" WITH");
    TerminatedArgs(create + accounts);
    ArgsOfConcat(create, accounts);
    TerminatedArgs(alter + accounts + with + Limits(limits));
    ArgsOfConcat(alter, accounts);
    ArgsOfConcat(alter + accounts, with);
    ArgsOfConcat(alter + accounts + with, Limits(limits));
  }

  /** For h hosts, r limits and g granted tables there are 6h + r + 2hg arguments, whatever the names are. */
  lemma IntendedArgs(user: string, pwd: string, hosts: seq<string>, ps: seq<Permission>, limits: seq<Limit>)
    ensures |ArgsOf(Joined(Intended(user, pwd, hosts, ps, limits)))|
            == 6 * |hosts| + |limits| + (2 * |hosts|) * Tables(ps)
  {
    hide CreateLine, AlterLine, GrantLine, Joined;
    var begin, commit := Lit("BEGIN;"), Lit("COMMIT;");
    var create, alter := CreateLine(user, pwd, hosts), AlterLine(user, pwd, hosts, limits);
    var grants := GrantLines(ps, user, hosts);
    JoinedArgs(Intended(user, pwd, hosts, ps, limits));
    ArgsOfLit("BEGIN;");
    ArgsOfLit("COMMIT;");
    CreateAndAlterArgs(user, pwd, hosts, limits);
    GrantLinesArgs(ps, user, hosts, 2 * |hosts|);
    ArgCountSnoc([begin, create, alter] + grants, commit);
    ArgCountConcat([begin, create, alter], grants);
    ArgCountSnoc([begin, create], alter);
    assert [begin, create] + [alter] == [begin, create, alter];
    ArgCountSnoc([begin], create);
    assert [begin] + [create] == [begin, create];
    ArgCountSnoc([], begin);
    assert [] + [begin] == [begin];
  }

  /* ---- when a placeholder goes to the wrong value ---- */

  predicate CleanName(s: string) { '?' !in s }

  predicate CleanGrant(p: Permission, table: string) {
    CleanName(p.schema) && CleanName(table) && forall x :: x in p.permissions ==> CleanName(x)
  }

  /** No name that is written into the text holds a question mark. A permission without tables is not written. */
  predicate CleanNames(ps: seq<Permission>, limits: seq<Limit>) {
    CleanKeys(limits) && CleanGrants(ps)
  }

  predicate CleanKeys(limits: seq<Limit>) {
    forall l :: l in limits ==> CleanName(l.key)
  }

  predicate CleanGrants(ps: seq<Permission>) {
    forall p, t :: p in ps && t in p.tables ==> CleanGrant(p, t)
  }

  lemma CleanConcat(a: Tokens, b: Tokens)
    ensures Clean(a + b) <==> Clean(a) && Clean(b)
  {
    assert Ch('?') in a + b <==> Ch('?') in a || Ch('?') in b;
  }

  lemma CleanLit(s: string)
    ensures Clean(Lit(s)) <==> CleanName(s)
  {
    if '?' in s {
      var i :| 0 <= i < |s| && s[i] == '?';
      assert Lit(s)[i] == Ch('?');
    }
  }

  lemma CleanTerminated(ts: Tokens)
    ensures Clean(Terminated(ts)) <==> Clean(ts)
  {
    CleanConcat(ts, [Ch(';')]);
  }

  lemma {:induction false} CleanAccounts(user: string, pwd: Option<string>, hosts: seq<string>)
    ensures Clean(Accounts(user, pwd, hosts))
  {
    if hosts != [] {
      var n := |hosts| - 1;
      CleanAccounts(user, pwd, hosts[..n]);
      CleanLit(",");
      CleanLit(" ");
      CleanLit("@");
      CleanLit(" IDENTIFIED BY ");
    }
  }

  lemma {:induction false} CleanLimits(limits: seq<Limit>)
    ensures Clean(Limits(limits)) <==> CleanKeys(limits)
  {
    if limits != [] {
      var n := |limits| - 1;
      var last := limits[n];
      assert limits == limits[..n] + [last];
      CleanLimits(limits[..n]);
      EscapedContains(last.key, '?');
      var text := " " + Escaped(last.key) + " ";
      assert '?' in text <==> '?' in Escaped(last.key);
      CleanLit(text);
      CleanConcat(Limits(limits[..n]), Lit(text));
      CleanConcat(Limits(limits[..n]) + Lit(text), [Val(Number(last.value))]);
    }
  }

  lemma JoinSnoc(parts: seq<string>, part: string, sep: string)
    ensures Join(parts + [part], sep) == if parts == [] then part else Join(parts, sep) + sep + part
  {
    assert (parts + [part])[..|parts|] == parts;
  }

  lemma {:induction false} CleanJoin(names: seq<string>)
    ensures CleanName(Join(EscapedAll(names), ", ")) <==> forall x :: x in names ==> CleanName(x)
  {
    hide Escaped;
    if names != [] {
      var n := |names| - 1;
      var first, last := names[..n], names[n];
      assert names == first + [last];
      assert EscapedAll(names) == EscapedAll(first) + [Escaped(last)];
      CleanJoin(first);
      EscapedContains(last, '?');
      JoinSnoc(EscapedAll(first), Escaped(last), ", ");
      var before := Join(EscapedAll(first), ", ");
      assert '?' in before + ", " + Escaped(last) <==> '?' in before || '?' in Escaped(last);
      assert (forall x :: x in names ==> CleanName(x)) <==>
             (forall x :: x in first ==> CleanName(x)) && CleanName(last);
    }
  }

  lemma CleanID(id: string)
    ensures CleanName(EscapeID(id)) <==> CleanName(id)
  {
    if id != "*" {
      var kept := Filter((c: char) => c != '`', id);
      FilterMember((c: char) => c != '`', id, '?');
      assert '?' in "`" + kept + "`" <==> '?' in kept;
    }
  }

  lemma CleanGrantText(p: Permission, table: string)
    ensures CleanName(GrantText(p, table)) <==> CleanGrant(p, table)
  {
    CleanJoin(p.permissions);
    CleanID(p.schema);
    CleanID(table);
    var perms, schema, t := Join(EscapedAll(p.permissions), ", "), EscapeID(p.schema), EscapeID(table);
    assert '?' in "GRANT " + perms + " ON " + schema + "." + t + " TO" <==> '?' in perms || '?' in schema || '?' in t;
  }

  lemma CleanGrantLine(p: Permission, table: string, user: string, hosts: seq<string>)
    ensures Clean(GrantLine(p, table, user, hosts)) <==> CleanGrant(p, table)
  {
    var head := Lit(GrantText(p, table));
    CleanTerminated(head + Accounts(user, None, hosts));
    CleanConcat(head, Accounts(user, None, hosts));
    CleanAccounts(user, None, hosts);
    CleanLit(GrantText(p, table));
    CleanGrantText(p, table);
  }

  ghost predicate AllClean(lines: seq<Tokens>) {
    forall l :: l in lines ==> Clean(l)
  }

  lemma {:induction false} CleanJoined(lines: seq<Tokens>)
    ensures Clean(Joined(lines)) <==> AllClean(lines)
  {
    if lines != [] {
      var n := |lines| - 1;
      assert lines == lines[..n] + [lines[n]];
      CleanJoined(lines[..n]);
      CleanConcat(Joined(lines[..n]), [Ch('\n')]);
      CleanConcat(Joined(lines[..n]) + [Ch('\n')], lines[n]);
    }
  }

  lemma {:induction false} CleanTableLines(p: Permission, tables: seq<string>, user: string, hosts: seq<string>)
    ensures AllClean(TableLines(p, tables, user, hosts)) <==> forall t :: t in tables ==> CleanGrant(p, t)
  {
    if tables != [] {
      hide GrantLine, CleanGrant;
      var n := |tables| - 1;
      assert tables == tables[..n] + [tables[n]];
      CleanTableLines(p, tables[..n], user, hosts);
      CleanGrantLine(p, tables[n], user, hosts);
      AllCleanConcat(TableLines(p, tables[..n], user, hosts), [GrantLine(p, tables[n], user, hosts)]);
    }
  }

  lemma AllCleanConcat(a: seq<Tokens>, b: seq<Tokens>)
    ensures AllClean(a + b) <==> AllClean(a) && AllClean(b)
  {
    if AllClean(a + b) {
      forall l | l in a ensures Clean(l) { assert l in a + b; }
      forall l | l in b ensures Clean(l) { assert l in a + b; }
    }
  }

  lemma {:induction false} CleanGrantLines(ps: seq<Permission>, user: string, hosts: seq<string>)
    ensures AllClean(GrantLines(ps, user, hosts)) <==> CleanGrants(ps)
  {
    if ps != [] {
      var n := |ps| - 1;
      assert ps == ps[..n] + [ps[n]];
      CleanGrantLines(ps[..n], user, hosts);
      CleanTableLines(ps[n], ps[n].tables, user, hosts);
      AllCleanConcat(GrantLines(ps[..n], user, hosts), TableLines(ps[n], ps[n].tables, user, hosts));
    }
  }

  lemma CleanCreateAndAlter(user: string, pwd: string, hosts: seq<string>, limits: seq<Limit>)
    ensures Clean(CreateLine(user, pwd, hosts))
    ensures Clean(AlterLine(user, pwd, hosts, limits)) <==> CleanKeys(limits)
  {
    var accounts := Accounts(user, Some(pwd), hosts);
    CleanAccounts(user, Some(pwd), hosts);
    CleanLimits(limits);
    var create, alter := Lit("CREATE USER IF NOT EXISTS"), Lit("ALTER USER");
    var with := if limits != [] then Lit(" WITH") else [];
    CleanLit("CREATE USER IF NOT EXISTS");
    CleanLit("ALTER USER");
    CleanLit(" WITH");
    CleanTerminated(create + accounts);
    CleanConcat(create, accounts);
    CleanTerminated(alter + accounts + with + Limits(limits));
    CleanConcat(alter, accounts);
    CleanConcat(alter + accounts, with);
    CleanConcat(alter + accounts + with, Limits(limits));
  }

  lemma CleanIntended(user: string, pwd: string, hosts: seq<string>, ps: seq<Permission>, limits: seq<Limit>)
    ensures Clean(Joined(Intended(user, pwd, hosts, ps, limits))) <==> CleanNames(ps, limits)
  {
    var begin, commit := Lit("BEGIN;"), Lit("COMMIT;");
    var create, alter := CreateLine(user, pwd, hosts), AlterLine(user, pwd, hosts, limits);
    var grants := GrantLines(ps, user, hosts);
    CleanJoined(Intended(user, pwd, hosts, ps, limits));
    AllCleanConcat([begin, create, alter] + grants, [commit]);
    AllCleanConcat([begin, create, alter], grants);
    CleanLit("BEGIN;");
    CleanLit("COMMIT;");
    CleanCreateAndAlter(user, pwd, hosts, limits);
    CleanGrantLines(ps, user, hosts);
    assert AllClean([commit]) <==> Clean(commit);
    assert AllClean([begin, create, alter]) <==> Clean(begin) && Clean(create) && Clean(alter) by {
      assert begin in [begin, create, alter] && create in [begin, create, alter] && alter in [begin, create, alter];
    }
  }

  /** What is sent for a user is bound back to what was meant, argument by argument, if and only if no name
      written into the text holds a question mark. */
  lemma UserQueryIsBoundExactly(user: string, pwd: string, hosts: seq<string>, ps: seq<Permission>,
                                limits: seq<Limit>, q: Query)
    requires Realises(q, Joined(Intended(user, pwd, hosts, ps, limits)))
    ensures Bound(q.text, q.args) == Some(Joined(Intended(user, pwd, hosts, ps, limits))) <==> CleanNames(ps, limits)
    ensures Bound(q.text, q.args).Some? <==> CleanNames(ps, limits)
    ensures |q.args| == 6 * |hosts| + |limits| + (2 * |hosts|) * Tables(ps)
    ensures Marks(q.text) == |q.args| <==> CleanNames(ps, limits)
  {
    IntendedArgs(user, pwd, hosts, ps, limits);
    BoundExactly(Joined(Intended(user, pwd, hosts, ps, limits)));
    CleanIntended(user, pwd, hosts, ps, limits);
  }
}
