/** `parse_query_properties`: turns the `--query-properties` arguments of the
    `enrich` command, each of the form `role=field`, into a mapping from query
    role to the dataset column that supplies it. */
module QueryProperties {
  import opened Wrappers
  import Strings

  const Separator: char := '='

  /** The (role, field) pair an argument contributes, split at its first `=`;
      None for an argument without `=`, which the loop skips. */
  function Entry(arg: string): Option<(string, string)>
  {
    Strings.SplitOnce(arg, Separator)
  }

  /** The argument contributes an entry for role `key`. */
  predicate HasKey(arg: string, key: string)
  {
    Entry(arg).Some? && Entry(arg).value.0 == key
  }

  /** Argument `i` is the last one that names role `key`. */
  predicate LastFor(args: seq<string>, i: int, key: string)
  {
    0 <= i < |args| && HasKey(args[i], key) && forall j :: i < j < |args| ==> !HasKey(args[j], key)
  }

  /** The mapping the loop has built after visiting every argument in order,
      each `role=field` argument overwriting what an earlier one stored. */
  function ParseQueryProperties(args: seq<string>): (r: map<string, string>)
    ensures forall k :: k in r ==> Separator !in k
    decreases |args|
  {
    if |args| == 0 then map[]
    else
      var before := ParseQueryProperties(args[..|args| - 1]);
      match Entry(args[|args| - 1])
      case None => before
      case Some((k, v)) => before[k := v]
  }

  /** A role is in the mapping exactly when some argument names it; nothing else is added. */
  lemma {:induction false} ParseKeys(args: seq<string>)
    ensures forall k :: k in ParseQueryProperties(args) <==> exists i :: 0 <= i < |args| && HasKey(args[i], k)
    decreases |args|
  {
    if |args| > 0 {
      var init := args[..|args| - 1];
      var last := args[|args| - 1];
      assert args == init + [last];
      ParseKeys(init);
      forall k
        ensures k in ParseQueryProperties(args) <==> exists i :: 0 <= i < |args| && HasKey(args[i], k)
      {
        ParseKeysStep(init, last, k);
      }
    }
  }

  /** One step of `ParseKeys`: appending an argument adds at most its own role. */
  lemma ParseKeysStep(init: seq<string>, last: string, k: string)
    requires k in ParseQueryProperties(init) <==> exists i :: 0 <= i < |init| && HasKey(init[i], k)
    ensures var args := init + [last];
            k in ParseQueryProperties(args) <==> exists i :: 0 <= i < |args| && HasKey(args[i], k)
  {
    var args := init + [last];
    ParseAppend(init, last);
    if k in ParseQueryProperties(init) {
      var i :| 0 <= i < |init| && HasKey(init[i], k);
      assert args[i] == init[i];
    } else if HasKey(last, k) {
      assert args[|init|] == last;
    }
    if exists i :: 0 <= i < |args| && HasKey(args[i], k) {
      var i :| 0 <= i < |args| && HasKey(args[i], k);
      if i < |init| {
        assert init[i] == args[i];
      }
    }
  }

  /** One more argument at the end either leaves the mapping alone (no `=`)
      or stores its field under its role. */
  lemma ParseAppend(args: seq<string>, arg: string)
    ensures Entry(arg).None? ==> ParseQueryProperties(args + [arg]) == ParseQueryProperties(args)
    ensures Entry(arg).Some? ==>
              ParseQueryProperties(args + [arg])
              == ParseQueryProperties(args)[Entry(arg).value.0 := Entry(arg).value.1]
  {
    assert (args + [arg])[..|args|] == args;
  }

  /** The arguments that contain `=`, in their original order. */
  function WithSeparator(args: seq<string>): (r: seq<string>)
    ensures forall i :: 0 <= i < |r| ==> Separator in r[i]
    ensures forall a :: a in r ==> a in args
  {
    if |args| == 0 then []
    else
      var last := args[|args| - 1];
      var init := WithSeparator(args[..|args| - 1]);
      assert forall a :: a in args[..|args| - 1] ==> a in args;
      if Separator in last then init + [last] else init
  }

  /** Arguments without `=` contribute nothing: dropping them changes nothing. */
  lemma {:induction false} SkippedArgumentsIrrelevant(args: seq<string>)
    ensures ParseQueryProperties(WithSeparator(args)) == ParseQueryProperties(args)
    decreases |args|
  {
    if |args| > 0 {
      var init := args[..|args| - 1];
      var last := args[|args| - 1];
      assert args == init + [last];
      SkippedArgumentsIrrelevant(init);
      ParseAppend(init, last);
      if Separator in last {
        ParseAppend(WithSeparator(init), last);
      }
    }
  }

  /** Without any `=` in the arguments the mapping is empty. */
  lemma NoSeparatorGivesEmpty(args: seq<string>)
    requires forall i :: 0 <= i < |args| ==> Separator !in args[i]
    ensures ParseQueryProperties(args) == map[]
  {
    ParseKeys(args);
  }

  /** The last argument naming a role decides that role's field. */
  lemma {:induction false} LastEntryWins(args: seq<string>, i: nat, key: string, field: string)
    requires i < |args|
    requires Entry(args[i]) == Some((key, field))
    requires forall j :: i < j < |args| ==> !HasKey(args[j], key)
    ensures key in ParseQueryProperties(args)
    ensures ParseQueryProperties(args)[key] == field
    decreases |args|
  {
    var init := args[..|args| - 1];
    var last := args[|args| - 1];
    assert args == init + [last];
    ParseAppend(init, last);
    if i < |args| - 1 {
      assert init[i] == args[i];
      forall j | i < j < |init|
        ensures !HasKey(init[j], key)
      {
        assert init[j] == args[j];
      }
      LastEntryWins(init, i, key, field);
    }
  }

  /** Conversely, every stored field comes from the last argument naming its role. */
  lemma {:induction false} ValueFromLastEntry(args: seq<string>, key: string)
    requires key in ParseQueryProperties(args)
    ensures exists i :: LastFor(args, i, key) && Entry(args[i]).value.1 == ParseQueryProperties(args)[key]
    decreases |args|
  {
    var init := args[..|args| - 1];
    var last := args[|args| - 1];
    assert args == init + [last];
    ParseAppend(init, last);
    if HasKey(last, key) {
      assert LastFor(args, |args| - 1, key);
    } else {
      assert key in ParseQueryProperties(init) && ParseQueryProperties(init)[key] == ParseQueryProperties(args)[key];
      ValueFromLastEntry(init, key);
      var i :| LastFor(init, i, key) && Entry(init[i]).value.1 == ParseQueryProperties(init)[key];
      LastForExtend(init, last, i, key);
    }
  }

  /** Appending an argument for another role keeps the last argument for `key`. */
  lemma LastForExtend(init: seq<string>, last: string, i: int, key: string)
    requires LastFor(init, i, key)
    requires !HasKey(last, key)
    ensures LastFor(init + [last], i, key)
    ensures (init + [last])[i] == init[i]
  {
    var args := init + [last];
    forall j | i < j < |args|
      ensures !HasKey(args[j], key)
    {
      if j < |init| {
        assert args[j] == init[j];
      }
    }
  }

  /** A field may itself contain `=`: only the first `=` separates role from field. */
  lemma FieldKeepsLaterSeparators(role: string, field: string)
    requires Separator !in role
    ensures ParseQueryProperties([role + "=" + field]) == map[role := field]
  {
    Strings.SplitOnceUnique(role, Separator, field);
    ParseAppend([], role + "=" + field);
    assert [] + [role + "=" + field] == [role + "=" + field];
  }

  /** The command-line arguments `role=field` that spell out `mapping`, one per listed role. */
  function ArgumentsFor(mapping: map<string, string>, roles: seq<string>): (args: seq<string>)
    requires forall i :: 0 <= i < |roles| ==> roles[i] in mapping
    ensures |args| == |roles|
  {
    if |roles| == 0 then []
    else
      var role := roles[|roles| - 1];
      ArgumentsFor(mapping, roles[..|roles| - 1]) + [role + "=" + mapping[role]]
  }

  /** Spelling a mapping out as `role=field` arguments and parsing them gives the
      mapping back (restricted to the listed roles), whenever no role contains `=`.
      Roles may be listed more than once. */
  lemma {:induction false} ParseArgumentsFor(mapping: map<string, string>, roles: seq<string>)
    requires forall i :: 0 <= i < |roles| ==> roles[i] in mapping && Separator !in roles[i]
    ensures ParseQueryProperties(ArgumentsFor(mapping, roles))
            == map role | role in roles :: mapping[role]
  {
    if |roles| > 0 {
      var init := roles[..|roles| - 1];
      var role := roles[|roles| - 1];
      var arg := role + "=" + mapping[role];
      assert roles == init + [role];
      forall i | 0 <= i < |init|
        ensures init[i] in mapping && Separator !in init[i]
      {
        assert init[i] == roles[i];
      }
      ParseArgumentsFor(mapping, init);
      assert ArgumentsFor(mapping, roles) == ArgumentsFor(mapping, init) + [arg];
      Strings.SplitOnceUnique(role, Separator, mapping[role]);
      assert Entry(arg) == Some((role, mapping[role]));
      ParseAppend(ArgumentsFor(mapping, init), arg);
      RestrictExtend(mapping, init, role);
    }
  }

  /** Restricting a mapping to one more role adds that role's entry. */
  lemma RestrictExtend(mapping: map<string, string>, init: seq<string>, role: string)
    requires role in mapping
    requires forall i :: 0 <= i < |init| ==> init[i] in mapping
    ensures (map r | r in init :: mapping[r])[role := mapping[role]]
            == map r | r in init + [role] :: mapping[r]
  {
    var before := map r | r in init :: mapping[r];
    var after := map r | r in init + [role] :: mapping[r];
    assert forall r :: r in init + [role] <==> r in init || r == role;
    assert before[role := mapping[role]].Keys == after.Keys;
  }

  /** Listing every role of a `=`-free mapping reproduces the whole mapping. */
  lemma ParseArgumentsForAll(mapping: map<string, string>, roles: seq<string>)
    requires forall role :: role in mapping <==> role in roles
    requires forall role :: role in mapping ==> Separator !in role
    ensures ParseQueryProperties(ArgumentsFor(mapping, roles)) == mapping
  {
    ParseArgumentsFor(mapping, roles);
  }

  /** Two `role=field` arguments are stored in order: for different roles the mapping
      has both entries; for the same role the second field overwrites the first. */
  lemma TwoArguments(role1: string, field1: string, role2: string, field2: string)
    requires Separator !in role1 && Separator !in role2
    ensures ParseQueryProperties([role1 + "=" + field1, role2 + "=" + field2])
            == map[role1 := field1][role2 := field2]
  {
    var first := role1 + "=" + field1;
    var second := role2 + "=" + field2;
    assert [first, second] == [first] + [second];
    assert [first] == [] + [first];
    Strings.SplitOnceUnique(role1, Separator, field1);
    Strings.SplitOnceUnique(role2, Separator, field2);
    ParseAppend([], first);
    ParseAppend([first], second);
  }

  /** The mapping of `--query-properties name=company_name location=city`. */
  lemma CommandLineExample()
    ensures ParseQueryProperties(["name=company_name", "location=city"])
            == map["name" := "company_name", "location" := "city"]
  {
    TwoArguments("name", "company_name", "location", "city");
    ExampleArguments();
  }

  /** The two arguments of the example, spelled as `role + "=" + field`. */
  lemma ExampleArguments()
    ensures "name" + "=" + "company_name" == "name=company_name"
    ensures "location" + "=" + "city" == "location=city"
  {
  }
}
