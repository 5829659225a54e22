/** `validate_settings`: the start-up check that refuses a production
    configuration still carrying debug mode or a default secret
    (backend/python-api/app/core/config.py). */
module ConfigValidation {
  import opened Wrappers
  import opened PyStr
  import opened Config

  const DebugMessage := "DEBUG should be False in production"
  const InProduction := " must be changed in production"
  const SecretKeyMessage := "SECRET_KEY" + InProduction
  const MySqlPasswordMessage := "MYSQL_PASSWORD" + InProduction
  const MongoDbPasswordMessage := "MONGODB_PASSWORD" + InProduction
  const ErrorPrefix := "Configuration errors: "

  /** Every message the check can report, in the order it checks them. */
  const AllMessages: seq<string> :=
    [DebugMessage, SecretKeyMessage, MySqlPasswordMessage, MongoDbPasswordMessage]

  /** The production rules as a table: whether each rule is broken, and the
      message that reports it. */
  function Checks(st: Settings): (r: seq<(bool, string)>)
    ensures |r| == |AllMessages|
    ensures forall i :: 0 <= i < |r| ==> r[i].1 == AllMessages[i]
  {
    [ (st.debug, DebugMessage),
      (st.secretKey == "changeme", SecretKeyMessage),
      (st.mysqlPassword == "password", MySqlPasswordMessage),
      (st.mongodbPassword == "password", MongoDbPasswordMessage) ]
  }

  /** The messages of the broken rules, in table order. */
  function Broken(checks: seq<(bool, string)>): seq<string>
    decreases |checks|
  {
    if checks == [] then []
    else
      var last := checks[|checks| - 1];
      Broken(checks[..|checks| - 1]) + (if last.0 then [last.1] else [])
  }

  /** The errors `validate_settings` collects: none outside production. */
  function ConfigErrors(st: Settings): seq<string> {
    if st.environment == "production" then Broken(Checks(st)) else []
  }

  /** `validate_settings`: appends one message per broken rule, in order,
      and fails with all of them joined by `", "` when there is any. */
  method ValidateSettings(st: Settings) returns (r: Outcome<string>)
    ensures r.Pass? <==> ConfigErrors(st) == []
    ensures r.Fail? ==> r.error == ErrorPrefix + Join(ConfigErrors(st), ", ")
  {
    var errors: seq<string> := [];
    if st.environment == "production" {
      ghost var checks := Checks(st);
      if st.debug {
        errors := errors + [DebugMessage];
      }
      assert checks[..1][..0] == checks[..0];
      assert errors == Broken(checks[..1]);
      if st.secretKey == "changeme" {
        errors := errors + [SecretKeyMessage];
      }
      assert checks[..2][..1] == checks[..1];
      assert errors == Broken(checks[..2]);
      if st.mysqlPassword == "password" {
        errors := errors + [MySqlPasswordMessage];
      }
      assert checks[..3][..2] == checks[..2];
      assert errors == Broken(checks[..3]);
      if st.mongodbPassword == "password" {
        errors := errors + [MongoDbPasswordMessage];
      }
      assert checks[..4][..3] == checks[..3];
      assert errors == Broken(checks[..4]);
      assert checks[..4] == checks;
    }
    if errors != [] {
      r := Fail(ErrorPrefix + Join(errors, ", "));
    } else {
      r := Pass;
    }
  }

  /** A message is reported exactly when some rule carrying it is broken. */
  lemma {:induction false} BrokenMember(checks: seq<(bool, string)>, m: string)
    ensures m in Broken(checks) <==> exists i :: 0 <= i < |checks| && checks[i] == (true, m)
    decreases |checks|
  {
    if checks != [] {
      var init := checks[..|checks| - 1];
      BrokenMember(init, m);
      if exists i :: 0 <= i < |init| && init[i] == (true, m) {
        var i :| 0 <= i < |init| && init[i] == (true, m);
        assert checks[i] == (true, m);
      }
      if exists i :: 0 <= i < |checks| && checks[i] == (true, m) {
        var i :| 0 <= i < |checks| && checks[i] == (true, m);
        if i < |init| {
          assert init[i] == (true, m);
        }
      }
    }
  }

  /** The reported messages are the broken rules' messages, picked out of
      the table in table order: a sublist of it, so at most one per rule. */
  predicate IsSublist(xs: seq<string>, ys: seq<string>)
    decreases |ys|
  {
    if ys == [] then xs == []
    else
      || (xs != [] && xs[|xs| - 1] == ys[|ys| - 1] && IsSublist(xs[..|xs| - 1], ys[..|ys| - 1]))
      || IsSublist(xs, ys[..|ys| - 1])
  }

  function Labels(checks: seq<(bool, string)>): (r: seq<string>)
    ensures |r| == |checks|
    ensures forall i :: 0 <= i < |checks| ==> r[i] == checks[i].1
  {
    seq(|checks|, i requires 0 <= i < |checks| => checks[i].1)
  }

  lemma {:induction false} BrokenSublist(checks: seq<(bool, string)>)
    ensures IsSublist(Broken(checks), Labels(checks))
    decreases |checks|
  {
    if checks != [] {
      var init := checks[..|checks| - 1];
      BrokenSublist(init);
      assert Labels(checks)[..|checks| - 1] == Labels(init);
      var b := Broken(checks);
      if checks[|checks| - 1].0 {
        assert b[..|b| - 1] == Broken(init);
      } else {
        assert b == Broken(init);
      }
    }
  }

  lemma {:induction false} SublistLength(xs: seq<string>, ys: seq<string>)
    requires IsSublist(xs, ys)
    ensures |xs| <= |ys|
    decreases |ys|
  {
    if ys != [] {
      if xs != [] && xs[|xs| - 1] == ys[|ys| - 1] && IsSublist(xs[..|xs| - 1], ys[..|ys| - 1]) {
        SublistLength(xs[..|xs| - 1], ys[..|ys| - 1]);
      } else {
        SublistLength(xs, ys[..|ys| - 1]);
      }
    }
  }

  /** Outside production nothing is reported and the check passes. */
  lemma ConfigErrorsOutsideProduction(st: Settings)
    requires st.environment != "production"
    ensures ConfigErrors(st) == []
  {
  }

  /** The reported messages appear in the fixed order debug, secret key,
      MySQL password, MongoDB password, each at most once, so at most four. */
  lemma ConfigErrorsOrdered(st: Settings)
    ensures IsSublist(ConfigErrors(st), AllMessages)
    ensures |ConfigErrors(st)| <= 4
  {
    BrokenSublist(Checks(st));
    assert Labels(Checks(st)) == AllMessages;
    if st.environment != "production" {
      assert IsSublist([], AllMessages[..0]);
      assert IsSublist([], AllMessages[..1]);
      assert IsSublist([], AllMessages[..2]);
      assert IsSublist([], AllMessages[..3]);
      assert AllMessages[..4] == AllMessages;
    }
    SublistLength(ConfigErrors(st), AllMessages);
  }

  lemma MessagesDistinct()
    ensures forall i, j :: 0 <= i < j < |AllMessages| ==> AllMessages[i] != AllMessages[j]
  {
    assert DebugMessage[0] == 'D' && SecretKeyMessage[0] == 'S';
    assert MySqlPasswordMessage[1] == 'Y' && MongoDbPasswordMessage[1] == 'O';
    assert MySqlPasswordMessage[0] == 'M' && MongoDbPasswordMessage[0] == 'M';
  }

  /** In production each message is reported exactly when its rule is
      broken. */
  lemma ConfigErrorsReportBrokenRules(st: Settings)
    requires st.environment == "production"
    ensures DebugMessage in ConfigErrors(st) <==> st.debug
    ensures SecretKeyMessage in ConfigErrors(st) <==> st.secretKey == "changeme"
    ensures MySqlPasswordMessage in ConfigErrors(st) <==> st.mysqlPassword == "password"
    ensures MongoDbPasswordMessage in ConfigErrors(st) <==> st.mongodbPassword == "password"
  {
    BrokenRuleReported(st, 0);
    BrokenRuleReported(st, 1);
    BrokenRuleReported(st, 2);
    BrokenRuleReported(st, 3);
  }

  lemma BrokenRuleReported(st: Settings, k: nat)
    requires st.environment == "production" && k < |AllMessages|
    ensures AllMessages[k] in ConfigErrors(st) <==> Checks(st)[k].0
  {
    var checks := Checks(st);
    MessagesDistinct();
    BrokenMember(checks, AllMessages[k]);
    if AllMessages[k] in ConfigErrors(st) {
      var i :| 0 <= i < |checks| && checks[i] == (true, AllMessages[k]);
      assert i == k;
    } else {
      assert checks[k].1 == AllMessages[k];
    }
  }

  /** In production the check fails exactly when at least one rule is
      broken; outside production it always passes. */
  lemma ConfigErrorsNonEmptyIff(st: Settings)
    ensures ConfigErrors(st) != [] <==>
      (st.environment == "production" &&
       (st.debug || st.secretKey == "changeme" || st.mysqlPassword == "password" || st.mongodbPassword == "password"))
  {
    if st.environment == "production" {
      ConfigErrorsReportBrokenRules(st);
      ConfigErrorsOrdered(st);
      if ConfigErrors(st) != [] {
        assert ConfigErrors(st)[0] in AllMessages by {
          SublistMember(ConfigErrors(st), AllMessages, ConfigErrors(st)[0]);
        }
      }
    }
  }

  lemma {:induction false} SublistMember(xs: seq<string>, ys: seq<string>, x: string)
    requires IsSublist(xs, ys) && x in xs
    ensures x in ys
    decreases |ys|
  {
    if xs[|xs| - 1] == ys[|ys| - 1] && IsSublist(xs[..|xs| - 1], ys[..|ys| - 1]) {
      if x != xs[|xs| - 1] {
        assert xs == xs[..|xs| - 1] + [xs[|xs| - 1]];
        SublistMember(xs[..|xs| - 1], ys[..|ys| - 1], x);
      }
    } else {
      SublistMember(xs, ys[..|ys| - 1], x);
    }
  }

  /** The failure text lists the collected messages: after the prefix,
      splitting at the commas and stripping each piece gives them back. */
  lemma FailureTextListsErrors(st: Settings)
    requires ConfigErrors(st) != []
    ensures var pieces := Split(Join(ConfigErrors(st), ", "), ',');
      |pieces| == |ConfigErrors(st)| &&
      forall i :: 0 <= i < |pieces| ==> Strip(pieces[i]) == ConfigErrors(st)[i]
  {
    var errs := ConfigErrors(st);
    ConfigErrorsOrdered(st);
    forall i | 0 <= i < |errs| ensures ',' !in errs[i] && Stripped(errs[i]) {
      SublistMember(errs, AllMessages, errs[i]);
      MessagePlain(errs[i]);
    }
    assert [','] + " " == ", ";
    SplitStripJoin(errs, ',', " ");
  }

  /** No message holds a comma or has whitespace at either end, so the
      joined failure text can be taken apart again. */
  lemma MessagePlain(m: string)
    requires m in AllMessages
    ensures ',' !in m && Stripped(m)
  {
    DebugMessagePlain();
    NamedMessagePlain("SECRET_KEY");
    NamedMessagePlain("MYSQL_PASSWORD");
    NamedMessagePlain("MONGODB_PASSWORD");
  }

  lemma DebugMessagePlain()
    ensures ',' !in DebugMessage && Stripped(DebugMessage)
  {
    assert DebugMessage[0] == 'D' && DebugMessage[|DebugMessage| - 1] == 'n';
  }

  lemma NamedMessagePlain(name: string)
    requires name != [] && ',' !in name && !IsSpace(name[0])
    ensures ',' !in name + InProduction && Stripped(name + InProduction)
  {
    assert ',' !in InProduction && InProduction[|InProduction| - 1] == 'n';
    var m := name + InProduction;
    assert m[0] == name[0] && m[|m| - 1] == 'n';
  }

  /** With the shipped defaults and no overrides, importing the module
      fails: the environment defaults to production and both database
      passwords default to "password". */
  lemma DefaultsRejected(secretKey: string)
    ensures ValidEnvironment(DefaultSettings(secretKey).environment)
    ensures ConfigErrors(DefaultSettings(secretKey)) ==
      (if secretKey == "changeme" then [SecretKeyMessage] else []) + [MySqlPasswordMessage, MongoDbPasswordMessage]
  {
    var checks := Checks(DefaultSettings(secretKey));
    assert checks[..1][..0] == [];
    assert Broken(checks[..1]) == [];
    assert checks[..2][..1] == checks[..1];
    assert Broken(checks[..2]) == if secretKey == "changeme" then [SecretKeyMessage] else [];
    assert checks[..3][..2] == checks[..2];
    assert checks[2] == (true, MySqlPasswordMessage);
    assert Broken(checks[..3]) == Broken(checks[..2]) + [MySqlPasswordMessage];
    assert checks[..4][..3] == checks[..3];
    assert checks[3] == (true, MongoDbPasswordMessage);
    assert Broken(checks[..4]) == Broken(checks[..3]) + [MongoDbPasswordMessage];
    assert checks[..4] == checks;
  }
}
