/** Account configuration: `load_accounts_from_yaml` and the two list switches that
  * src/config.py reads from the environment. */
module Config {
  import opened Wrappers
  import opened Text
  import opened Yaml

  /** What the loader raises. `Malformed` stands for the TypeError or AttributeError
    * Python raises when the document does not have the expected shape. */
  datatype ConfigError =
    | NoAccountsKey
    | NoEnabledAccount
    | MissingFields(name: Value, fields: seq<string>)
    | Malformed

  /** The fields every enabled account must carry. */
  const AccountFields: seq<string> := ["name", "user", "password", "server", "port", "spam_folder"]

  /** `'accounts' in data` for a truthy document: a key test on a mapping, an element
    * test on a list, a substring test on a string; numbers and booleans raise. */
  function MentionsAccounts(data: Value): Result<bool, ConfigError> {
    match data
    case Mapping(entries) => Success(HasKey(entries, "accounts"))
    case List(items) => Success(Str("accounts") in items)
    case Str(s) => Success(HasInfix(s, "accounts"))
    case _ => Failure(Malformed)
  }

  /** The items `for acc in value` visits: list elements, mapping keys, string
    * characters; anything else is not iterable. */
  function Iterated(value: Value): Result<seq<Value>, ConfigError> {
    match value
    case List(items) => Success(items)
    case Mapping(entries) => Success(seq(|entries|, i requires 0 <= i < |entries| => Str(entries[i].0)))
    case Str(s) => Success(seq(|s|, i requires 0 <= i < |s| => Str([s[i]])))
    case _ => Failure(Malformed)
  }

  /** `acc.get('enabled', False)` as a truth value; only a mapping has `get`. */
  function EnabledFlag(acc: Value): Result<bool, ConfigError> {
    match acc
    case Mapping(entries) => Success(Truthy(GetOr(entries, "enabled", Bool(false))))
    case _ => Failure(Malformed)
  }

  predicate IsEnabled(acc: Value) {
    EnabledFlag(acc) == Success(true)
  }

  /** Every item is a mapping, so `acc.get` succeeds on each. */
  predicate AllMappings(accounts: seq<Value>) {
    forall i :: 0 <= i < |accounts| ==> accounts[i].Mapping?
  }

  /** The comprehension that keeps the enabled accounts. */
  function EnabledAccounts(accounts: seq<Value>): (r: Result<seq<Value>, ConfigError>)
    ensures r.Success? <==> AllMappings(accounts)
    ensures r.Failure? ==> r.error == Malformed
  {
    if accounts == [] then Success([])
    else
      var head := EnabledFlag(accounts[0]);
      var tail := EnabledAccounts(accounts[1..]);
      assert AllMappings(accounts) <==> accounts[0].Mapping? && AllMappings(accounts[1..]) by {
        assert forall i :: 0 < i < |accounts| ==> accounts[i] == accounts[1..][i - 1];
      }
      if head.Failure? then Failure(head.error)
      else if tail.Failure? then Failure(tail.error)
      else Success((if head.value then [accounts[0]] else []) + tail.value)
  }

  /** The comprehension keeps an account exactly when it is enabled. */
  lemma {:induction false} EnabledAccountsMembers(accounts: seq<Value>)
    requires AllMappings(accounts)
    ensures forall acc :: acc in EnabledAccounts(accounts).value <==> acc in accounts && IsEnabled(acc)
  {
    if accounts != [] {
      assert AllMappings(accounts[1..]) by {
        assert forall i :: 0 <= i < |accounts| - 1 ==> accounts[1..][i] == accounts[i + 1];
      }
      EnabledAccountsMembers(accounts[1..]);
      assert forall acc :: acc in accounts <==> acc == accounts[0] || acc in accounts[1..];
    }
  }

  /** An account that lacks at least one required field. */
  predicate Incomplete(acc: Value) {
    acc.Mapping? && Missing(acc.entries, AccountFields) != []
  }

  /** The error raised for an incomplete account, named by `acc.get('name', 'unknown')`. */
  function Complaint(acc: Value): ConfigError
    requires acc.Mapping?
  {
    MissingFields(GetOr(acc.entries, "name", Str("unknown")), Missing(acc.entries, AccountFields))
  }

  /** Where the validation loop stops: the first incomplete account, or the end. */
  function FirstIncomplete(accounts: seq<Value>): (i: nat)
    ensures i <= |accounts|
    ensures forall j :: 0 <= j < i ==> !Incomplete(accounts[j])
    ensures i < |accounts| ==> Incomplete(accounts[i])
  {
    if accounts == [] || Incomplete(accounts[0]) then 0
    else
      var i := FirstIncomplete(accounts[1..]);
      assert forall j :: 0 < j <= i ==> accounts[j] == accounts[1..][j - 1];
      i + 1
  }

  /** The validation loop: the first incomplete account raises. */
  function Validate(accounts: seq<Value>): (r: Option<ConfigError>)
    requires AllMappings(accounts)
    ensures r.None? <==> forall j :: 0 <= j < |accounts| ==> !Incomplete(accounts[j])
  {
    var i := FirstIncomplete(accounts);
    if i < |accounts| then Some(Complaint(accounts[i])) else None
  }

  /** What the loader does with the items stored under `accounts`. */
  function SelectAccounts(items: seq<Value>): (r: Result<seq<Value>, ConfigError>)
    ensures r.Success? ==> r.value != [] && forall acc :: acc in r.value ==>
      acc in items && IsEnabled(acc) && acc.Mapping? && !Incomplete(acc)
  {
    var enabled := EnabledAccounts(items);
    if enabled.Failure? then Failure(enabled.error)
    else if enabled.value == [] then Failure(NoEnabledAccount)
    else
      EnabledAccountsMembers(items);
      assert AllMappings(enabled.value) by {
        assert forall k :: 0 <= k < |enabled.value| ==> IsEnabled(enabled.value[k]);
      }
      var complaint := Validate(enabled.value);
      if complaint.Some? then Failure(complaint.value) else Success(enabled.value)
  }

  /** `load_accounts_from_yaml` on the parsed document `data`. */
  function LoadAccounts(data: Value): (r: Result<seq<Value>, ConfigError>)
    ensures !Truthy(data) ==> r == Failure(NoAccountsKey)
    ensures data.Mapping? && !HasKey(data.entries, "accounts") ==> r == Failure(NoAccountsKey)
    ensures r.Success? ==> data.Mapping? && HasKey(data.entries, "accounts")
    ensures r.Success? ==> r.value != [] && forall acc :: acc in r.value ==>
      IsEnabled(acc) && acc.Mapping? && forall f :: f in AccountFields ==> HasKey(acc.entries, f)
  {
    if !Truthy(data) then Failure(NoAccountsKey)
    else
      var present := MentionsAccounts(data);
      if present.Failure? then Failure(present.error)
      else if !present.value then Failure(NoAccountsKey)
      else if !data.Mapping? then Failure(Malformed)
      else
        var items := Iterated(Get(data.entries, "accounts").value);
        if items.Failure? then Failure(items.error)
        else
          SelectAccounts(items.value)
  }

  /** The loader keeps exactly the enabled accounts, in their order: the selection of
    * a concatenation is the concatenation of the selections. */
  lemma {:induction false} EnabledAccountsAppend(a: seq<Value>, b: seq<Value>)
    requires AllMappings(a) && AllMappings(b)
    ensures EnabledAccounts(a + b) == Success(EnabledAccounts(a).value + EnabledAccounts(b).value)
  {
    if a == [] {
      assert a + b == b;
      assert EnabledAccounts(a).value + EnabledAccounts(b).value == EnabledAccounts(b).value;
    } else {
      assert (a + b)[0] == a[0] && (a + b)[1..] == a[1..] + b;
      assert AllMappings(a[1..]) by {
        assert forall i :: 0 <= i < |a| - 1 ==> a[1..][i] == a[i + 1];
      }
      EnabledAccountsAppend(a[1..], b);
      var h := if IsEnabled(a[0]) then [a[0]] else [];
      assert h + (EnabledAccounts(a[1..]).value + EnabledAccounts(b).value)
        == (h + EnabledAccounts(a[1..]).value) + EnabledAccounts(b).value;
    }
  }

  /** `acc.get` succeeds on a concatenation exactly when it succeeds on both parts. */
  lemma AllMappingsAppend(a: seq<Value>, b: seq<Value>)
    ensures AllMappings(a + b) <==> AllMappings(a) && AllMappings(b)
  {
    assert forall k :: 0 <= k < |a| ==> a[k] == (a + b)[k];
    assert forall k :: 0 <= k < |b| ==> b[k] == (a + b)[|a| + k];
  }

  /** A disabled account alone is selected away. */
  lemma EnabledAccountsOfDisabled(acc: Value)
    requires acc.Mapping? && !IsEnabled(acc)
    ensures EnabledAccounts([acc]) == Success([])
  {
    assert [acc][0] == acc && [acc][1..] == [];
    assert EnabledFlag(acc) == Success(false);
    assert EnabledAccounts([]) == Success([]);
    var none: seq<Value> := [];
    assert none + none == none;
  }

  /** Inserting a disabled mapping leaves the comprehension's outcome as it was. */
  lemma EnabledAccountsSkip(a: seq<Value>, b: seq<Value>, acc: Value)
    requires acc.Mapping? && !IsEnabled(acc)
    ensures EnabledAccounts(a + [acc] + b) == EnabledAccounts(a + b)
  {
    var with := a + ([acc] + b);
    assert a + [acc] + b == with;
    AllMappingsAppend(a, b);
    AllMappingsAppend([acc], b);
    AllMappingsAppend(a, [acc] + b);
    assert AllMappings([acc]);
    if AllMappings(a + b) {
      EnabledAccountsOfDisabled(acc);
      EnabledAccountsAppend([acc], b);
      assert EnabledAccounts([acc]).value + EnabledAccounts(b).value == EnabledAccounts(b).value;
      EnabledAccountsAppend(a, [acc] + b);
      EnabledAccountsAppend(a, b);
    }
  }

  /** A disabled account changes nothing, whatever fields it has or lacks. */
  lemma DisabledAccountIgnored(items: seq<Value>, i: nat, acc: Value)
    requires i <= |items|
    requires acc.Mapping? && !IsEnabled(acc)
    ensures SelectAccounts(items[..i] + [acc] + items[i..]) == SelectAccounts(items)
  {
    assert items == items[..i] + items[i..];
    EnabledAccountsSkip(items[..i], items[i..], acc);
  }

  /** A document whose `accounts` key holds a list: the loader goes on to the selection. */
  lemma LoadAccountsOfList(data: Value, items: seq<Value>)
    requires data.Mapping? && Get(data.entries, "accounts") == Some(List(items))
    ensures LoadAccounts(data) == SelectAccounts(items)
  {
    assert HasKey(data.entries, "accounts");
    assert Truthy(data);
  }

  /** A document whose `accounts` key holds no list: iterating a mapping or a string
    * yields keys or characters, on which `acc.get` raises, so only an empty one gets as
    * far as "no enabled account"; any other value is not iterable at all. */
  lemma LoadAccountsOfNonList(data: Value, value: Value)
    requires data.Mapping? && Get(data.entries, "accounts") == Some(value) && !value.List?
    ensures (value.Mapping? || value.Str?) && Truthy(value) ==> LoadAccounts(data) == Failure(Malformed)
    ensures (value.Mapping? || value.Str?) && !Truthy(value) ==> LoadAccounts(data) == Failure(NoEnabledAccount)
    ensures !value.Mapping? && !value.Str? ==> LoadAccounts(data) == Failure(Malformed)
  {
    assert HasKey(data.entries, "accounts");
    assert Truthy(data);
    var items := Iterated(value);
    if items.Success? && items.value != [] {
      assert EnabledFlag(items.value[0]) == Failure(Malformed);
    }
  }

  /** Over a list of mappings the selection succeeds exactly when some account is
    * enabled and every enabled account is complete; it then yields exactly the
    * enabled accounts, and with no enabled account it reports that. */
  lemma SelectAccountsOutcome(items: seq<Value>)
    requires AllMappings(items)
    ensures SelectAccounts(items).Success? <==>
      (exists acc :: acc in items && IsEnabled(acc)) &&
      forall acc :: acc in items && IsEnabled(acc) ==> !Incomplete(acc)
    ensures SelectAccounts(items).Success? ==>
      forall acc :: acc in SelectAccounts(items).value <==> acc in items && IsEnabled(acc)
    ensures (forall acc :: acc in items ==> !IsEnabled(acc)) ==>
      SelectAccounts(items) == Failure(NoEnabledAccount)
  {
    EnabledAccountsMembers(items);
    var enabled := EnabledAccounts(items).value;
    if enabled != [] {
      assert enabled[0] in enabled;
    }
    assert forall acc :: acc in enabled <==> exists j :: 0 <= j < |enabled| && enabled[j] == acc;
  }

  /** The validation loop passes over complete accounts. */
  lemma {:induction false} FirstIncompleteAfter(done: seq<Value>, rest: seq<Value>)
    requires forall k :: 0 <= k < |done| ==> !Incomplete(done[k])
    ensures FirstIncomplete(done + rest) == |done| + FirstIncomplete(rest)
  {
    if done != [] {
      assert (done + rest)[0] == done[0] && (done + rest)[1..] == done[1..] + rest;
      FirstIncompleteAfter(done[1..], rest);
    } else {
      assert done + rest == rest;
    }
  }

  /** An enabled account alone is kept. */
  lemma EnabledAccountsOfEnabled(acc: Value)
    requires IsEnabled(acc)
    ensures EnabledAccounts([acc]) == Success([acc])
  {
    assert [acc][0] == acc && [acc][1..] == [];
    assert EnabledFlag(acc) == Success(true);
    assert EnabledAccounts([]) == Success([]);
    var none: seq<Value> := [];
    assert [acc] + none == [acc];
  }

  /** The comprehension around one enabled account. */
  lemma EnabledAccountsAround(pre: seq<Value>, acc: Value, post: seq<Value>)
    requires AllMappings(pre + [acc] + post) && IsEnabled(acc)
    ensures AllMappings(pre) && AllMappings(post)
    ensures EnabledAccounts(pre + [acc] + post) ==
      Success(EnabledAccounts(pre).value + ([acc] + EnabledAccounts(post).value))
  {
    var with := pre + ([acc] + post);
    assert pre + [acc] + post == with;
    AllMappingsAppend(pre, [acc] + post);
    AllMappingsAppend([acc], post);
    EnabledAccountsOfEnabled(acc);
    EnabledAccountsAppend([acc], post);
    EnabledAccountsAppend(pre, [acc] + post);
  }

  /** When every enabled account of a stretch is complete, so is everything kept from it. */
  lemma EnabledAccountsComplete(accounts: seq<Value>)
    requires AllMappings(accounts)
    requires forall j :: 0 <= j < |accounts| && IsEnabled(accounts[j]) ==> !Incomplete(accounts[j])
    ensures forall j :: 0 <= j < |EnabledAccounts(accounts).value| ==>
      !Incomplete(EnabledAccounts(accounts).value[j])
  {
    var kept := EnabledAccounts(accounts).value;
    EnabledAccountsMembers(accounts);
    forall j | 0 <= j < |kept|
      ensures !Incomplete(kept[j])
    {
      assert kept[j] in accounts;
    }
  }

  /** The selection reports the account where the validation loop stops. */
  lemma SelectAccountsReports(items: seq<Value>, enabled: seq<Value>)
    requires EnabledAccounts(items) == Success(enabled)
    requires FirstIncomplete(enabled) < |enabled|
    ensures AllMappings(enabled)
    ensures SelectAccounts(items) == Failure(Complaint(enabled[FirstIncomplete(enabled)]))
  {
    EnabledAccountsMembers(items);
    assert forall j :: 0 <= j < |enabled| ==> IsEnabled(enabled[j]) by {
      assert forall j :: 0 <= j < |enabled| ==> enabled[j] in enabled;
    }
  }

  /** The error names the first enabled account that lacks a field, whatever follows it. */
  lemma FirstIncompleteReported(items: seq<Value>, k: nat)
    requires AllMappings(items) && k < |items|
    requires IsEnabled(items[k]) && Incomplete(items[k])
    requires forall j :: 0 <= j < k && IsEnabled(items[j]) ==> !Incomplete(items[j])
    ensures SelectAccounts(items) == Failure(Complaint(items[k]))
  {
    var pre, post := items[..k], items[k + 1..];
    assert items == pre + [items[k]] + post;
    EnabledAccountsAround(pre, items[k], post);
    assert forall j :: 0 <= j < |pre| ==> pre[j] == items[j];
    EnabledAccountsComplete(pre);
    var done := EnabledAccounts(pre).value;
    var rest := [items[k]] + EnabledAccounts(post).value;
    FirstIncompleteAfter(done, rest);
    assert FirstIncomplete(rest) == 0 by {
      assert rest[0] == items[k];
    }
    assert (done + rest)[|done|] == items[k];
    SelectAccountsReports(items, done + rest);
  }

  /** `os.getenv(name, default).lower() == 'true'`, with the variable's value as a parameter. */
  function EnvFlag(value: Option<string>, default: string): bool {
    Lower(value.GetOr(default)) == "true"
  }

  /** `USE_LISTS`, on by default. */
  function UseLists(value: Option<string>): bool {
    EnvFlag(value, "true")
  }

  /** `FORCE_LIST_UPDATE`, off by default. */
  function ForceListUpdate(value: Option<string>): bool {
    EnvFlag(value, "false")
  }

  /** A set variable switches on exactly when it spells "true" in any letter case;
    * an unset one takes its default. */
  lemma EnvFlagSpelling(value: string, default: string)
    ensures EnvFlag(Some(value), default) <==>
      (|value| == 4 && LowerChar(value[0]) == 't' && LowerChar(value[1]) == 'r' &&
       LowerChar(value[2]) == 'u' && LowerChar(value[3]) == 'e')
    ensures EnvFlag(None, default) == EnvFlag(Some(default), default)
  {
    LowerChars(value);
    var l := Lower(value);
    if |value| == 4 {
      assert l == [l[0], l[1], l[2], l[3]];
    }
  }

  /** The switches' defaults, and two spellings the switches accept or refuse. */
  lemma FlagDefaults()
    ensures UseLists(None) && !ForceListUpdate(None)
    ensures UseLists(Some("TRUE")) && ForceListUpdate(Some("True"))
    ensures !UseLists(Some("1")) && !UseLists(Some("yes"))
  {
    EnvFlagSpelling("TRUE", "true");
    EnvFlagSpelling("True", "false");
    EnvFlagSpelling("true", "true");
    EnvFlagSpelling("false", "false");
  }
}
