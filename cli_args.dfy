/** The command line of the search tool: the argument scanner `GetArg` and
    the guard that prints the usage text instead of searching when no name
    was given. */
module CliArgs {
  import opened Wrappers
  import opened Text
  import opened Seqs

  // -------------------------------------------------------------- GetArg

  /** `keys.Contains(a, StringComparer.OrdinalIgnoreCase)`. */
  predicate IsKey(a: string, keys: seq<string>) {
    exists k :: k in keys && EqualsIgnoreCase(a, k)
  }

  /** `a` starts with `k + "="`, ignoring case. */
  predicate HasKeyPrefix(a: string, k: string) {
    StartsWithIgnoreCase(a, k + "=")
  }

  /** The `key=` test for the argument `a`, applied to each key in turn. */
  function PrefixTest(a: string): string -> bool {
    (k: string) => HasKeyPrefix(a, k)
  }

  /** `GetArg` from position `i` on: at each argument the exact-key test
      comes first (the value is the next argument, or "" when there is none),
      then the keys in their order as `key=` prefixes (the value is the text
      after the `=`); the first argument that passes either test decides. */
  function GetArgFrom(args: seq<string>, keys: seq<string>, i: nat): Option<string>
    requires i <= |args|
    decreases |args| - i
  {
    if i == |args| then None
    else if IsKey(args[i], keys) then Some(if i + 1 < |args| then args[i + 1] else "")
    else match IndexOfFirst(PrefixTest(args[i]), keys)
      case Some(m) => Some(args[i][|keys[m]| + 1..])
      case None => GetArgFrom(args, keys, i + 1)
  }

  /** `GetArg(args, keys)`; `None` stands for `null`. */
  function GetArg(args: seq<string>, keys: seq<string>): Option<string> {
    GetArgFrom(args, keys, 0)
  }

  // ------------------------------------------------------ declarative view

  /** The argument at `i` is a key, or starts with a key and `=`. */
  predicate HitAt(args: seq<string>, keys: seq<string>, i: nat)
    requires i < |args|
  {
    IsKey(args[i], keys) || exists m :: 0 <= m < |keys| && HasKeyPrefix(args[i], keys[m])
  }

  /** `GetArg` finds nothing exactly when no argument is a hit. */
  lemma GetArgNone(args: seq<string>, keys: seq<string>)
    ensures GetArg(args, keys).None? <==> forall i :: 0 <= i < |args| ==> !HitAt(args, keys, i)
  {
    GetArgFromNone(args, keys, 0);
  }

  lemma {:induction false} GetArgFromNone(args: seq<string>, keys: seq<string>, i: nat)
    requires i <= |args|
    ensures GetArgFrom(args, keys, i).None? <==> forall j :: i <= j < |args| ==> !HitAt(args, keys, j)
    decreases |args| - i
  {
    if i < |args| {
      GetArgFromNone(args, keys, i + 1);
      var r := IndexOfFirst(PrefixTest(args[i]), keys);
      if r.Some? {
        assert HasKeyPrefix(args[i], keys[r.value]);
        assert HitAt(args, keys, i);
      } else if !IsKey(args[i], keys) {
        assert forall m :: 0 <= m < |keys| ==> !PrefixTest(args[i])(keys[m]);
        assert !HitAt(args, keys, i);
        assert GetArgFrom(args, keys, i) == GetArgFrom(args, keys, i + 1);
        assert (forall j :: i <= j < |args| ==> !HitAt(args, keys, j)) <==>
          (forall j :: i + 1 <= j < |args| ==> !HitAt(args, keys, j));
      } else {
        assert HitAt(args, keys, i);
      }
    }
  }

  /** The earliest hit decides. When it is an exact key, the value is the
      next argument, whatever it looks like, or "" after the last argument;
      otherwise the value is the text after `key=` for the first key, in
      key order, that prefixes the argument. */
  lemma GetArgFirstHit(args: seq<string>, keys: seq<string>, i: nat)
    requires i < |args| && HitAt(args, keys, i)
    requires forall j :: 0 <= j < i ==> !HitAt(args, keys, j)
    ensures IsKey(args[i], keys) ==>
      GetArg(args, keys) == Some(if i + 1 < |args| then args[i + 1] else "")
    ensures !IsKey(args[i], keys) ==> forall m ::
      (0 <= m < |keys| && HasKeyPrefix(args[i], keys[m]) &&
       (forall m' :: 0 <= m' < m ==> !HasKeyPrefix(args[i], keys[m']))) ==>
      GetArg(args, keys) == Some(args[i][|keys[m]| + 1..])
  {
    GetArgFromSkip(args, keys, 0, i);
    if !IsKey(args[i], keys) {
      var r := IndexOfFirst(PrefixTest(args[i]), keys);
      forall m | 0 <= m < |keys| && HasKeyPrefix(args[i], keys[m]) &&
        (forall m' :: 0 <= m' < m ==> !HasKeyPrefix(args[i], keys[m']))
        ensures r == Some(m)
      {
        assert r.Some?;
        assert !(r.value < m) && !(m < r.value);
      }
    }
  }

  /** Arguments before the first hit are passed over. */
  lemma {:induction false} GetArgFromSkip(args: seq<string>, keys: seq<string>, from: nat, i: nat)
    requires from <= i < |args|
    requires forall j :: from <= j < i ==> !HitAt(args, keys, j)
    ensures GetArgFrom(args, keys, from) == GetArgFrom(args, keys, i)
    decreases i - from
  {
    if from < i {
      assert !HitAt(args, keys, from);
      GetArgFromSkip(args, keys, from + 1, i);
    }
  }

  /** A value given as `key=value` is found under its key. */
  lemma {:induction false} PrefixValue(k: string, value: string)
    ensures HasKeyPrefix(k + "=" + value, k)
    ensures (k + "=" + value)[|k| + 1..] == value
  {
    var a := k + "=" + value;
    assert a[..|k + "="|] == k + "=";
  }

  // --------------------------------------------------------- usage guard

  /** The keys the search tool accepts for the name. */
  const NameKeys: seq<string> := ["--name", "-n"]

  /** The text `PrintUsage` writes. */
  const UsageLines: seq<string> := ["Usage:", "dotnet run -- --name Neude"]

  /** What the tool does with its command line. */
  datatype CliAction = PrintUsage | RunSearch(term: string)

  /** The top-level guard: a missing or blank name prints the usage text and
      ends without searching; any other name is searched for as it is. */
  function Decide(args: seq<string>): CliAction {
    var name := GetArg(args, NameKeys);
    if name.None? || IsBlank(name.value) then PrintUsage else RunSearch(name.value)
  }

  /** The search runs exactly when a non-blank name was found, and it runs
      with that name, untrimmed. */
  lemma DecideSpec(args: seq<string>)
    ensures Decide(args).RunSearch? <==>
      GetArg(args, NameKeys).Some? && !IsBlank(GetArg(args, NameKeys).value)
    ensures Decide(args).RunSearch? ==>
      Some(Decide(args).term) == GetArg(args, NameKeys) && !IsBlank(Decide(args).term)
  {
  }

  /** `--name Neude` searches for `Neude`. */
  lemma ExampleSeparateValue(args: seq<string>)
    requires args == ["--name", "Neude"]
    ensures Decide(args) == RunSearch("Neude")
  {
    assert EqualsIgnoreCase(args[0], NameKeys[0]);
  }

  /** `-N=Neude` searches for `Neude`: keys ignore case. */
  lemma ExampleInlineValue(args: seq<string>)
    requires args == ["-N=Neude"]
    ensures Decide(args) == RunSearch("Neude")
  {
    var a := args[0];
    assert !IsKey(a, NameKeys);
    assert a[..7][1] == 'N';
    assert !HasKeyPrefix(a, NameKeys[0]);
    assert a[..3] == "-N=" && NameKeys[1] + "=" == "-n=";
    assert HasKeyPrefix(a, NameKeys[1]);
    assert IndexOfFirst(PrefixTest(a), NameKeys) == Some(1);
    assert a[3..] == "Neude";
    assert GetArgFrom(args, NameKeys, 0) == Some("Neude");
    assert !IsBlank("Neude") by {
      assert !IsWhiteSpace("Neude"[0]);
    }
  }

  /** A trailing `--name` gives "" and so prints the usage text. */
  lemma ExampleMissingValue(args: seq<string>)
    requires args == ["--name"]
    ensures GetArg(args, NameKeys) == Some("")
    ensures Decide(args) == PrintUsage
  {
    assert EqualsIgnoreCase(args[0], NameKeys[0]);
  }
}
