/** The exact texts and arguments of the statements for a user, and of the transaction that holds them. */
module SqlTexts {
  import opened Common
  import opened Escaping
  import opened SqlBuilder

  lemma TextOfConcat(a: Tokens, b: Tokens)
    ensures TextOf(a + b) == TextOf(a) + TextOf(b)
  {
  }

  lemma TextOfLit(s: string)
    ensures TextOf(Lit(s)) == s
  {
  }

  /** An identifier is quoted with backquotes, without those in it; a star stays as it is. */
  lemma QuotedExactly(id: string)
    ensures EscapeID("*") == "*"
    ensures id != "*" ==> exists inner :: EscapeID(id) == "`" + inner + "`" && '`' !in inner
                                         && inner == Filter((c: char) => c != '`', id)
    ensures id != "*" && '`' !in id ==> EscapeID(id) == "`" + id + "`"
  {
    var inner := Filter((c: char) => c != '`', id);
    FilterMember((c: char) => c != '`', id, '`');
    if '`' !in id { KeepsAll(id); }
    if id != "*" { assert EscapeID(id) == "`" + inner + "`"; }
  }

  lemma {:induction false} KeepsAll(id: string)
    requires '`' !in id
    ensures Filter((c: char) => c != '`', id) == id
  {
    if id != "" {
      assert id == id[..|id| - 1] + [id[|id| - 1]];
      KeepsAll(id[..|id| - 1]);
    }
  }

  /** The start of a grant: what is granted, on the table of the schema, both quoted unless they are a star. */
  lemma GrantTextExactly(p: Permission, table: string)
    requires '`' !in p.schema && '`' !in table
    ensures GrantText(p, table)
            == "GRANT " + Join(EscapedAll(p.permissions), ", ") + " ON "
               + (if p.schema == "*" then "*" else "`" + p.schema + "`") + "."
               + (if table == "*" then "*" else "`" + table + "`") + " TO"
  {
    QuotedExactly(p.schema);
    QuotedExactly(table);
  }

  /** Names are joined with a comma and a space. */
  lemma JoinExactly(parts: seq<string>, part: string)
    ensures Join([], ", ") == "" && Join([part], ", ") == part
    ensures parts != [] ==> Join(parts + [part], ", ") == Join(parts, ", ") + ", " + part
  {
    JoinSnoc(parts, part, ", ");
  }

  /** The accounts, one per host: user and host, with the password where there is one, and commas between. */
  lemma AccountsExactly(user: string, pwd: Option<string>, hosts: seq<string>, host: string)
    ensures TextOf(Accounts(user, pwd, hosts + [host]))
            == TextOf(Accounts(user, pwd, hosts)) + (if hosts == [] then "" else ",")
               + (if pwd.Some? then " ?@? IDENTIFIED BY ?" else " ?@?")
    ensures ArgsOf(Accounts(user, pwd, hosts + [host]))
            == ArgsOf(Accounts(user, pwd, hosts))
               + (if pwd.Some? then [Text(user), Text(host), Text(pwd.value)] else [Text(user), Text(host)])
  {
    assert (hosts + [host])[..|hosts|] == hosts;
    var before := Accounts(user, pwd, hosts);
    var text, args := TextOf(before), ArgsOf(before);
    if hosts == [] {
      assert before + [] == before && text + "" == text;
      AccountSends(text, args, before, user, pwd, host);
    } else {
      SendsLit(text, args, before, ",");
      AccountSends(text + ",", args, before + Lit(","), user, pwd, host);
    }
  }

  /** The statement that creates the user on its hosts. */
  lemma CreateExactly(user: string, pwd: string, hosts: seq<string>)
    requires hosts != []
    ensures var accounts := Accounts(user, Some(pwd), hosts);
            && TextOf(CreateLine(user, pwd, hosts)) == "CREATE USER IF NOT EXISTS" + TextOf(accounts) + ";"
            && ArgsOf(CreateLine(user, pwd, hosts)) == ArgsOf(accounts)
  {
    var head := "CREATE USER IF NOT EXISTS";
    var accounts := Accounts(user, Some(pwd), hosts);
    AccountsEnd(user, Some(pwd), hosts);
    ArgsOfLit(head);
    hide Accounts, Lit, TextOf, ArgsOf;
    SendsBoth(head, [], Lit(head), TextOf(accounts), ArgsOf(accounts), accounts) by { TextOfLit(head); }
    FinishedSends(head + TextOf(accounts), [] + ArgsOf(accounts), Lit(head) + accounts);
    assert [] + ArgsOf(accounts) == ArgsOf(accounts);
  }

  lemma AccountsEnd(user: string, pwd: Option<string>, hosts: seq<string>)
    requires hosts != []
    ensures var text := TextOf(Accounts(user, pwd, hosts)); text != "" && text[|text| - 1] == '?'
  {
    AccountsExactly(user, pwd, hosts[..|hosts| - 1], hosts[|hosts| - 1]);
    assert hosts == hosts[..|hosts| - 1] + [hosts[|hosts| - 1]];
  }

  /** The resource limits: each name escaped, between blanks, before the placeholder of its value. */
  lemma LimitsExactly(limits: seq<Limit>, limit: Limit)
    ensures TextOf(Limits([])) == "" && ArgsOf(Limits([])) == []
    ensures TextOf(Limits(limits + [limit])) == TextOf(Limits(limits)) + (" " + Escaped(limit.key) + " ") + "?"
    ensures ArgsOf(Limits(limits + [limit])) == ArgsOf(Limits(limits)) + [Number(limit.value)]
  {
    hide Escaped;
    assert (limits + [limit])[..|limits|] == limits;
    var before, name := Limits(limits), " " + Escaped(limit.key) + " ";
    SendsLit(TextOf(before), ArgsOf(before), before, name);
    SendsVal(TextOf(before) + name, ArgsOf(before), before + Lit(name), Number(limit.value));
  }

  /** The statement that resets the password and sets the limits. */
  lemma AlterExactly(user: string, pwd: string, hosts: seq<string>, limits: seq<Limit>)
    requires hosts != []
    ensures var accounts, line := Accounts(user, Some(pwd), hosts), AlterLine(user, pwd, hosts, limits);
            && TextOf(line) == "ALTER USER" + TextOf(accounts) + (if limits == [] then "" else " WITH")
                               + TextOf(Limits(limits)) + ";"
            && ArgsOf(line) == ArgsOf(accounts) + ArgsOf(Limits(limits))
  {
    var head, with := "ALTER USER", if limits == [] then "" else " WITH";
    var accounts, ending := Accounts(user, Some(pwd), hosts), Limits(limits);
    var ts := Lit(head) + accounts + Lit(with) + ending;
    AccountsEnd(user, Some(pwd), hosts);
    ArgsOfLit(head);
    LimitsEnd(limits);
    assert Lit("") == [];
    assert AlterLine(user, pwd, hosts, limits) == Terminated(ts);
    hide Accounts, Limits, Lit, TextOf, ArgsOf, AlterLine, Terminated;
    SendsBoth(head, [], Lit(head), TextOf(accounts), ArgsOf(accounts), accounts) by { TextOfLit(head); }
    SendsLit(head + TextOf(accounts), [] + ArgsOf(accounts), Lit(head) + accounts, with);
    var text, args := head + TextOf(accounts) + with, [] + ArgsOf(accounts);
    SendsBoth(text, args, Lit(head) + accounts + Lit(with), TextOf(ending), ArgsOf(ending), ending);
    FinishedSends(text + TextOf(ending), args + ArgsOf(ending), ts);
    assert [] + ArgsOf(accounts) == ArgsOf(accounts);
  }

  lemma LimitsEnd(limits: seq<Limit>)
    ensures limits != [] ==> EndsIn(TextOf(Limits(limits)), '?')
    ensures limits == [] ==> TextOf(Limits(limits)) == ""
  {
    if limits != [] {
      LimitsExactly(limits[..|limits| - 1], limits[|limits| - 1]);
      assert limits == limits[..|limits| - 1] + [limits[|limits| - 1]];
    }
  }

  /** The statement that grants on one table: only user and host of each account, no password. */
  lemma GrantExactly(p: Permission, table: string, user: string, hosts: seq<string>)
    requires hosts != []
    ensures var accounts, line := Accounts(user, None, hosts), GrantLine(p, table, user, hosts);
            && TextOf(line) == GrantText(p, table) + TextOf(accounts) + ";"
            && ArgsOf(line) == ArgsOf(accounts)
  {
    var head := GrantText(p, table);
    var accounts := Accounts(user, None, hosts);
    AccountsEnd(user, None, hosts);
    ArgsOfLit(head);
    hide GrantText, Accounts, Lit, TextOf, ArgsOf;
    SendsBoth(head, [], Lit(head), TextOf(accounts), ArgsOf(accounts), accounts) by { TextOfLit(head); }
    FinishedSends(head + TextOf(accounts), [] + ArgsOf(accounts), Lit(head) + accounts);
    assert [] + ArgsOf(accounts) == ArgsOf(accounts);
  }

  /** One grant per table, in the order of the tables. */
  lemma {:induction false} TableLinesExactly(p: Permission, tables: seq<string>, user: string, hosts: seq<string>)
    ensures |TableLines(p, tables, user, hosts)| == |tables|
    ensures forall i :: 0 <= i < |tables| ==>
              TableLines(p, tables, user, hosts)[i] == GrantLine(p, tables[i], user, hosts)
  {
    hide GrantLine;
    if tables != [] {
      var n := |tables| - 1;
      TableLinesExactly(p, tables[..n], user, hosts);
      TableLinesSnoc(p, tables, user, hosts);
      hide TableLines;
      forall i | 0 <= i < n
        ensures TableLines(p, tables, user, hosts)[i] == GrantLine(p, tables[i], user, hosts)
      {
        assert TableLines(p, tables, user, hosts)[i] == TableLines(p, tables[..n], user, hosts)[i];
      }
    }
  }

  lemma TableLinesSnoc(p: Permission, tables: seq<string>, user: string, hosts: seq<string>)
    requires tables != []
    ensures var n := |tables| - 1;
            TableLines(p, tables, user, hosts)
            == TableLines(p, tables[..n], user, hosts) + [GrantLine(p, tables[n], user, hosts)]
  {
    hide GrantLine;
  }

  /** The grants of all permissions, in order. */
  lemma GrantLinesExactly(ps: seq<Permission>, p: Permission, user: string, hosts: seq<string>)
    ensures GrantLines([], user, hosts) == []
    ensures GrantLines(ps + [p], user, hosts) == GrantLines(ps, user, hosts) + TableLines(p, p.tables, user, hosts)
  {
    assert (ps + [p])[..|ps|] == ps;
  }

  /** These statements, each with the end of its line. */
  function LinesText(lines: seq<Tokens>): string {
    if lines == [] then ""
    else LinesText(lines[..|lines| - 1]) + TextOf(lines[|lines| - 1]) + "\n"
  }

  function LinesArgs(lines: seq<Tokens>): seq<Arg> {
    if lines == [] then [] else LinesArgs(lines[..|lines| - 1]) + ArgsOf(lines[|lines| - 1])
  }

  /** All but the last statement end their lines, and the arguments follow the statements. */
  lemma {:induction false} JoinedExactly(lines: seq<Tokens>, last: Tokens)
    ensures TextOf(Joined(lines + [last])) == LinesText(lines) + TextOf(last)
    ensures ArgsOf(Joined(lines + [last])) == LinesArgs(lines) + ArgsOf(last)
  {
    var all := lines + [last];
    assert all[..|lines|] == lines;
    if lines != [] {
      hide TextOf, ArgsOf;
      var n := |lines| - 1;
      var before, text, args := Joined(lines), LinesText(lines[..n]) + TextOf(lines[n]),
                                LinesArgs(lines[..n]) + ArgsOf(lines[n]);
      JoinedExactly(lines[..n], lines[n]);
      assert lines[..n] + [lines[n]] == lines;
      assert Sends(text, args, before);
      assert Lit("\n") == [Ch('\n')];
      SendsLit(text, args, before, "\n");
      SendsBoth(text + "\n", args, before + [Ch('\n')], TextOf(last), ArgsOf(last), last);
    } else {
      assert LinesText([]) + TextOf(last) == TextOf(last) && LinesArgs([]) + ArgsOf(last) == ArgsOf(last);
    }
  }

  lemma LinesOfSnoc(lines: seq<Tokens>, line: Tokens)
    ensures LinesText(lines + [line]) == LinesText(lines) + TextOf(line) + "\n"
    ensures LinesArgs(lines + [line]) == LinesArgs(lines) + ArgsOf(line)
  {
    hide TextOf, ArgsOf;
    assert (lines + [line])[..|lines|] == lines;
  }

  lemma {:induction false} LinesOfConcat(lines: seq<Tokens>, more: seq<Tokens>)
    ensures LinesText(lines + more) == LinesText(lines) + LinesText(more)
    ensures LinesArgs(lines + more) == LinesArgs(lines) + LinesArgs(more)
    decreases |more|
  {
    hide TextOf, ArgsOf;
    if more == [] {
      assert lines + more == lines;
    } else {
      hide LinesText, LinesArgs;
      var first, last := more[..|more| - 1], more[|more| - 1];
      LinesOfConcat(lines, first);
      LinesOfSnoc(first, last);
      LinesOfSnoc(lines + first, last);
      assert first + [last] == more && (lines + first) + [last] == lines + more by { Associates(lines, first, [last]); }
      Associates(LinesText(lines), LinesText(first), TextOf(last));
      Associates(LinesText(lines), LinesText(first) + TextOf(last), "\n");
      Associates(LinesArgs(lines), LinesArgs(first), ArgsOf(last));
    }
  }

  lemma Associates<T>(a: seq<T>, b: seq<T>, c: seq<T>)
    ensures a + b + c == a + (b + c)
  {
  }

  /** What is sent for a user: a transaction that creates it, alters it and makes all its grants. */
  lemma TransactionExactly(user: string, pwd: string, hosts: seq<string>, ps: seq<Permission>, limits: seq<Limit>)
    ensures var create, alter := CreateLine(user, pwd, hosts), AlterLine(user, pwd, hosts, limits);
            var grants, sent := GrantLines(ps, user, hosts), Joined(Intended(user, pwd, hosts, ps, limits));
            && TextOf(sent) == "BEGIN;\n" + TextOf(create) + "\n" + TextOf(alter) + "\n" + LinesText(grants)
                               + "COMMIT;"
            && ArgsOf(sent) == ArgsOf(create) + ArgsOf(alter) + LinesArgs(grants)
  {
    var create, alter := CreateLine(user, pwd, hosts), AlterLine(user, pwd, hosts, limits);
    var begin, commit, grants := Lit("BEGIN;"), Lit("COMMIT;"), GrantLines(ps, user, hosts);
    assert Intended(user, pwd, hosts, ps, limits) == [begin, create, alter] + grants + [commit];
    BeginCreateAlter(create, alter);
    TextOfLit("COMMIT;");
    ArgsOfLit("COMMIT;");
    hide *;
    JoinedExactly([begin, create, alter] + grants, commit);
    LinesOfConcat([begin, create, alter], grants);
    assert LinesArgs([begin, create, alter] + grants) + [] == LinesArgs([begin, create, alter] + grants);
  }

  lemma BeginCreateAlter(create: Tokens, alter: Tokens)
    ensures LinesText([Lit("BEGIN;"), create, alter]) == "BEGIN;\n" + TextOf(create) + "\n" + TextOf(alter) + "\n"
    ensures LinesArgs([Lit("BEGIN;"), create, alter]) == ArgsOf(create) + ArgsOf(alter)
  {
    var begin := Lit("BEGIN;");
    TextOfLit("BEGIN;");
    ArgsOfLit("BEGIN;");
    hide *;
    assert "BEGIN;" + "\n" == "BEGIN;\n";
    LinesOfConcat([begin, create], [alter]);
    LinesOfConcat([begin], [create]);
    assert [begin] + [create] == [begin, create] && [begin, create] + [alter] == [begin, create, alter];
    LinesOfOne(begin);
    LinesOfOne(create);
    LinesOfOne(alter);
    assert [] + ArgsOf(create) == ArgsOf(create);
  }

  lemma LinesOfOne(line: Tokens)
    ensures LinesText([line]) == TextOf(line) + "\n" && LinesArgs([line]) == ArgsOf(line)
  {
    assert [line][..0] == [];
    assert LinesText([line]) == "" + TextOf(line) + "\n" && LinesArgs([line]) == [] + ArgsOf(line);
  }
}
