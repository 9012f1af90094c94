/** `check_snowflake_config` and `get_snowflake_connection` in combined_analysis.py:
    which configuration variables are missing, the status table shown when none
    are, and the choice between the account formats. The connector is a
    parameter that says whether connecting with a given account string succeeds;
    a failed connect in the modern or regional branch is caught by the outer
    handler, which returns None. */
module SnowflakeConfig {
  import opened Strings
  import opened Seqs
  import opened Wrappers

  /** The six variables read from the environment, `None` when unset. */
  datatype Config = Config(
    user: Option<string>, password: Option<string>, account: Option<string>,
    warehouse: Option<string>, database: Option<string>, schema: Option<string>)

  /** The keys of the configuration dictionary, in insertion order. */
  const ConfigKeys: seq<string> := ["user", "password", "account", "warehouse", "database", "schema"]

  function Settings(c: Config): (vs: seq<Option<string>>)
    ensures |vs| == |ConfigKeys|
  {
    [c.user, c.password, c.account, c.warehouse, c.database, c.schema]
  }

  /** Python's `not value`: None and the empty string are both unset. */
  predicate Unset(v: Option<string>) {
    v.None? || v.value == ""
  }

  /** The keys whose settings are unset, in key order. */
  function MissingFrom(keys: seq<string>, vals: seq<Option<string>>): (missing: seq<string>)
    requires |keys| == |vals|
    ensures IsSubsequence(missing, keys)
    ensures forall k :: k in missing ==> exists i :: 0 <= i < |keys| && keys[i] == k && Unset(vals[i])
    ensures forall i :: 0 <= i < |keys| && Unset(vals[i]) ==> keys[i] in missing
  {
    if |keys| == 0 then []
    else
      var rest := MissingFrom(keys[1..], vals[1..]);
      SubsequenceOfTail(rest, keys);
      assert forall i :: 1 <= i < |keys| ==> keys[i] == keys[1..][i - 1] && vals[i] == vals[1..][i - 1];
      if Unset(vals[0]) then [keys[0]] + rest else rest
  }

  /** The `missing_vars` list. */
  function MissingVars(c: Config): seq<string> {
    MissingFrom(ConfigKeys, Settings(c))
  }

  /** A key is listed exactly when its setting is unset, and the list follows key order. */
  lemma MissingVarsSpec(c: Config)
    ensures IsSubsequence(MissingVars(c), ConfigKeys)
    ensures forall i :: 0 <= i < |ConfigKeys| ==> (ConfigKeys[i] in MissingVars(c) <==> Unset(Settings(c)[i]))
  {
    forall i | 0 <= i < |ConfigKeys| && ConfigKeys[i] in MissingVars(c)
      ensures Unset(Settings(c)[i])
    {
      var j :| 0 <= j < |ConfigKeys| && ConfigKeys[j] == ConfigKeys[i] && Unset(Settings(c)[j]);
      assert i == j;
    }
  }

  /** One row of the status table. */
  datatype StatusRow = StatusRow(variable: string, value: string, status: string)

  datatype ConfigCheck =
    | Incomplete(message: string)
    | Complete(status: seq<StatusRow>)

  const CheckMark: string := "✅"
  const CrossMark: string := "❌"

  function Mark(v: Option<string>): string {
    if Unset(v) then CrossMark else CheckMark
  }

  function Shown(v: Option<string>): string {
    if v.Some? then v.value else ""
  }

  /** `check_snowflake_config`: the error message naming the missing variables, or the
      five-row status table (the password is never shown). */
  function CheckConfig(c: Config): ConfigCheck {
    var missing := MissingVars(c);
    if missing != [] then
      Incomplete("Missing Snowflake configuration variables: " + Join(missing, ", "))
    else
      Complete([
        StatusRow("User", Shown(c.user), Mark(c.user)),
        StatusRow("Account", Shown(c.account), Mark(c.account)),
        StatusRow("Warehouse", Shown(c.warehouse), Mark(c.warehouse)),
        StatusRow("Database", Shown(c.database), Mark(c.database)),
        StatusRow("Schema", Shown(c.schema), Mark(c.schema))])
  }

  /** The check passes exactly when every variable is set; the status table then has five
      rows, none of them the password, each showing its value with a check mark. */
  lemma CheckConfigSpec(c: Config)
    ensures CheckConfig(c).Complete? <==> forall i :: 0 <= i < 6 ==> !Unset(Settings(c)[i])
    ensures CheckConfig(c).Complete? ==>
      && |CheckConfig(c).status| == 5
      && (forall k :: 0 <= k < 5 ==> CheckConfig(c).status[k].status == CheckMark)
      && (forall k :: 0 <= k < 5 ==> CheckConfig(c).status[k].variable != "Password")
      && (forall k :: 0 <= k < 5 ==> CheckConfig(c).status[k].value != "")
      && [CheckConfig(c).status[0].value, CheckConfig(c).status[1].value, CheckConfig(c).status[2].value,
          CheckConfig(c).status[3].value, CheckConfig(c).status[4].value]
         == [c.user.value, c.account.value, c.warehouse.value, c.database.value, c.schema.value]
  {
    MissingVarsSpec(c);
    var m := MissingVars(c);
    if m != [] {
      assert m[0] in m;
      var i :| 0 <= i < |ConfigKeys| && ConfigKeys[i] == m[0] && Unset(Settings(c)[i]);
    } else {
      assert forall i :: 0 <= i < |ConfigKeys| ==> ConfigKeys[i] !in m;
      var vs := Settings(c);
      assert vs[0] == c.user && vs[2] == c.account && vs[3] == c.warehouse;
      assert vs[4] == c.database && vs[5] == c.schema;
      assert !Unset(vs[0]) && !Unset(vs[2]) && !Unset(vs[3]) && !Unset(vs[4]) && !Unset(vs[5]);
      assert !Unset(c.user) && !Unset(c.account) && !Unset(c.warehouse);
      assert !Unset(c.database) && !Unset(c.schema);
    }
  }

  /** With every setting present nothing is listed. */
  lemma NothingMissing(keys: seq<string>, vals: seq<Option<string>>)
    requires |keys| == |vals| && forall i :: 0 <= i < |vals| ==> !Unset(vals[i])
    ensures MissingFrom(keys, vals) == []
  {
  }

  /** With only the second setting unset, only the second key is listed. */
  lemma OnlySecondMissing(keys: seq<string>, vals: seq<Option<string>>)
    requires |keys| == |vals| >= 2
    requires !Unset(vals[0]) && Unset(vals[1]) && forall i :: 2 <= i < |vals| ==> !Unset(vals[i])
    ensures MissingFrom(keys, vals) == [keys[1]]
  {
    assert keys[1..][1..] == keys[2..] && vals[1..][1..] == vals[2..];
    NothingMissing(keys[2..], vals[2..]);
  }

  /** The password alone missing is reported by name. */
  lemma MissingPasswordMessage(c: Config)
    requires Unset(c.password)
    requires !Unset(c.user) && !Unset(c.account) && !Unset(c.warehouse)
    requires !Unset(c.database) && !Unset(c.schema)
    ensures CheckConfig(c) == Incomplete("Missing Snowflake configuration variables: password")
  {
    OnlySecondMissing(ConfigKeys, Settings(c));
    assert MissingVars(c) == ["password"];
    assert Join(["password"], ", ") == "password";
  }

  /* ---------------- choosing the account format ---------------- */

  const Regions: seq<string> := ["us-east-1", "us-west-2", "eu-central-1", "ap-southeast-1"]

  /** Which branch of `get_snowflake_connection` was taken. */
  datatype Route = ConfigIncomplete | ModernAccount | RegionProbe | RegionalAccount

  /** The branch taken and the account string of the connection made, if any. */
  datatype Connection = Connection(route: Route, connectedAs: Option<string>)

  /** The region loop in isolation: try `account.region` for each region in order;
      the first that connects wins, and a failure moves on to the next. */
  function ProbeRegions(account: string, regions: seq<string>, connect: string -> bool): (r: Option<string>)
    ensures r.Some? <==> exists i :: 0 <= i < |regions| && connect(account + "." + regions[i])
    ensures r.Some? ==> exists i :: (0 <= i < |regions| && r.value == account + "." + regions[i]
      && connect(r.value) && forall j :: 0 <= j < i ==> !connect(account + "." + regions[j]))
  {
    if |regions| == 0 then None
    else if connect(account + "." + regions[0]) then Some(account + "." + regions[0])
    else
      var r := ProbeRegions(account, regions[1..], connect);
      assert forall i :: 1 <= i < |regions| ==> regions[i] == regions[1..][i - 1];
      if r.Some? then
        var i :| (0 <= i < |regions[1..]| && r.value == account + "." + regions[1..][i]
          && connect(r.value) && forall j :: 0 <= j < i ==> !connect(account + "." + regions[1..][j]));
        assert r.value == account + "." + regions[i + 1];
        r
      else r
  }

  /** `get_snowflake_connection`, with the region loop written out as in the source. */
  function GetConnection(c: Config, connect: string -> bool): Connection {
    if CheckConfig(c).Incomplete? then Connection(ConfigIncomplete, None)
    else
      var account := Shown(c.account);
      if !Contains(account, "snowflakecomputing.com") && '.' !in account then
        Connection(ModernAccount, if connect(account) then Some(account) else None)
      else if '.' !in account then
        Connection(RegionProbe, ProbeRegions(account, Regions, connect))
      else
        Connection(RegionalAccount, if connect(account) then Some(account) else None)
  }

  /** The region loop is dead code: an account without '.' already took the modern branch. */
  lemma RegionProbeUnreachable(c: Config, connect: string -> bool)
    ensures GetConnection(c, connect).route != RegionProbe
  {
    var account := Shown(c.account);
    if Contains(account, "snowflakecomputing.com") && '.' !in account {
      assert "snowflakecomputing.com"[18] == '.';
      NotContainsWithoutChar(account, "snowflakecomputing.com", '.');
    }
  }

  /** The connection attempt: a complete configuration connects with the account string
      exactly as configured, in the modern branch when it has no '.', else the regional one. */
  lemma GetConnectionSpec(c: Config, connect: string -> bool)
    ensures CheckConfig(c).Incomplete? <==> GetConnection(c, connect).route == ConfigIncomplete
    ensures GetConnection(c, connect).route == ModernAccount <==>
      CheckConfig(c).Complete? && '.' !in Shown(c.account)
    ensures GetConnection(c, connect).connectedAs.Some? <==>
      CheckConfig(c).Complete? && connect(Shown(c.account))
    ensures GetConnection(c, connect).connectedAs.Some? ==>
      GetConnection(c, connect).connectedAs.value == Shown(c.account)
  {
    CheckConfigSpec(c);
    RegionProbeUnreachable(c, connect);
    if CheckConfig(c).Complete? {
      assert !Unset(Settings(c)[2]);
      var account := c.account.value;
      if '.' !in account {
        assert "snowflakecomputing.com"[18] == '.';
        NotContainsWithoutChar(account, "snowflakecomputing.com", '.');
      }
    }
  }
}
