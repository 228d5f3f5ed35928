/**
 * The `environment` field of a service (autocompose.py:88-130): entries are
 * split at their first "=", keys named by the AUTOCOMPOSE_EXCLUDE label never
 * appear, bare keys appear (with a null value) only under "include all", and
 * a later entry for a key overwrites an earlier one.
 */
module Environment {
  import opened Wrappers
  import opened AssocLists
  import opened Text

  const ExcludeLabel := "AUTOCOMPOSE_EXCLUDE"

  /** The environment mapping: key to value, where None is YAML null. */
  type EnvMap = Assoc<string, Option<string>>

  /** `[key.strip() for key in pieces if key.strip()]`. */
  function StrippedKeys(pieces: seq<string>): (r: seq<string>)
  {
    if |pieces| == 0 then []
    else (if Strip(pieces[0]) != "" then [Strip(pieces[0])] else []) + StrippedKeys(pieces[1..])
  }

  lemma StrippedKeysIn(pieces: seq<string>, k: string)
    ensures k in StrippedKeys(pieces) <==> k != "" && exists i :: 0 <= i < |pieces| && Strip(pieces[i]) == k
  {
    if k in StrippedKeys(pieces) {
      KeptKeyHasPiece(pieces, k);
    }
    if k != "" && exists i :: 0 <= i < |pieces| && Strip(pieces[i]) == k {
      var i :| 0 <= i < |pieces| && Strip(pieces[i]) == k;
      PieceKeyIsKept(pieces, i, k);
    }
  }

  lemma StrippedKeysStep(pieces: seq<string>)
    requires |pieces| > 0
    ensures StrippedKeys(pieces) == (if Strip(pieces[0]) != "" then [Strip(pieces[0])] else []) + StrippedKeys(pieces[1..])
  {
  }

  lemma {:induction false} KeptKeyHasPiece(pieces: seq<string>, k: string)
    requires k in StrippedKeys(pieces)
    ensures k != "" && exists i :: 0 <= i < |pieces| && Strip(pieces[i]) == k
  {
    StrippedKeysStep(pieces);
    var head, first := if Strip(pieces[0]) != "" then [Strip(pieces[0])] else [], Strip(pieces[0]);
    if k in head {
      assert first == k;
    } else {
      assert k in StrippedKeys(pieces[1..]);
      KeptKeyHasPiece(pieces[1..], k);
      var i :| 0 <= i < |pieces[1..]| && Strip(pieces[1..][i]) == k;
      assert pieces[1..][i] == pieces[i + 1];
    }
  }

  lemma {:induction false} PieceKeyIsKept(pieces: seq<string>, i: nat, k: string)
    requires i < |pieces| && k == Strip(pieces[i]) && k != ""
    ensures k in StrippedKeys(pieces)
  {
    StrippedKeysStep(pieces);
    if i > 0 {
      assert pieces[1..][i - 1] == pieces[i];
      PieceKeyIsKept(pieces[1..], i - 1, k);
    }
  }

  /** The keys the AUTOCOMPOSE_EXCLUDE label lists (autocompose.py:89-94). */
  function ExcludedKeys(labels: Assoc<string, string>): seq<string> {
    match Get(labels, ExcludeLabel)
    case None => []
    case Some(v) => if v == "" then [] else StrippedKeys(Split(v, ','))
  }

  /**
   * A key is excluded exactly when the label is present and one of its
   * comma-separated pieces, stripped of white space, is that (non-empty) key.
   */
  lemma ExcludedKeysSpec(labels: Assoc<string, string>, k: string)
    ensures k in ExcludedKeys(labels) <==>
      && Get(labels, ExcludeLabel).Some?
      && k != ""
      && exists i :: 0 <= i < |Split(Get(labels, ExcludeLabel).value, ',')|
           && Strip(Split(Get(labels, ExcludeLabel).value, ',')[i]) == k
  {
    match Get(labels, ExcludeLabel)
    case None =>
    case Some(v) =>
      if v == "" {
        EmptySplit(',');
        assert ExcludedKeys(labels) == [];
      } else {
        assert ExcludedKeys(labels) == StrippedKeys(Split(v, ','));
        StrippedKeysIn(Split(v, ','), k);
      }
  }

  lemma EmptySplit(c: char)
    ensures Split("", c) == [""]
    ensures Strip("") == ""
  {
    assert SplitFirst("", c) == ("", None);
  }

  /** The key of an entry: the text before its first "=", or the whole entry. */
  function EnvKey(entry: string): string {
    SplitFirst(entry, '=').0
  }

  /** The value of an entry: the text after its first "=", or None for a bare key. */
  function EnvValue(entry: string): Option<string> {
    SplitFirst(entry, '=').1
  }

  /** Whether the loop at autocompose.py:103-124 stores this entry. */
  predicate Admitted(entry: string, excluded: seq<string>, includeAll: bool) {
    EnvKey(entry) != "" && EnvKey(entry) !in excluded && (includeAll || EnvValue(entry).Some?)
  }

  function AdmittedBy(excluded: seq<string>, includeAll: bool): string -> bool {
    entry => Admitted(entry, excluded, includeAll)
  }

  /** The mapping after processing the entries in order: `env[key] = value` for each admitted one. */
  function EnvFrom(env: seq<string>, excluded: seq<string>, includeAll: bool): EnvMap {
    PutAll([], env, AdmittedBy(excluded, includeAll), EnvKey, EnvValue)
  }

  /** The field: omitted (None) when the mapping is empty. */
  function EnvironmentField(env: seq<string>, excluded: seq<string>, includeAll: bool): Option<EnvMap> {
    var m := EnvFrom(env, excluded, includeAll);
    if |m| == 0 then None else Some(m)
  }

  /** The loop of autocompose.py:100-130, building the mapping in place. */
  method BuildEnvironment(env: seq<string>, excluded: seq<string>, includeAll: bool)
    returns (environment: Option<EnvMap>)
    ensures environment == EnvironmentField(env, excluded, includeAll)
    ensures environment.Some? ==> |environment.value| > 0
  {
    environment := None;
    if |env| > 0 {
      var acc: EnvMap := [];
      var i := 0;
      while i < |env|
        invariant 0 <= i <= |env|
        invariant acc == EnvFrom(env[..i], excluded, includeAll)
      {
        var entry := env[i];
        var parts := SplitFirst(entry, '=');
        var key, value := parts.0, parts.1;
        assert env[..i + 1][..i] == env[..i];
        PutAllStep([], env[..i + 1], AdmittedBy(excluded, includeAll), EnvKey, EnvValue);
        if key == "" {
        } else if key in excluded {
        } else if includeAll {
          acc := Put(acc, key, value);
        } else if value.Some? {
          acc := Put(acc, key, value);
        }
        i := i + 1;
      }
      assert env[..|env|] == env;
      if |acc| > 0 {
        environment := Some(acc);
      }
    }
  }

  /**
   * A key is in the mapping exactly when some entry with that key is admitted:
   * non-empty, not excluded, and either "include all" or written with "=".
   */
  lemma EnvKeyPresence(env: seq<string>, excluded: seq<string>, includeAll: bool, k: string)
    ensures HasKey(EnvFrom(env, excluded, includeAll), k) <==>
      exists i :: 0 <= i < |env| && Admitted(env[i], excluded, includeAll) && EnvKey(env[i]) == k
  {
    PutAllPresence([], env, AdmittedBy(excluded, includeAll), EnvKey, EnvValue, k);
  }

  /** Last wins: the value under a key is that of the last admitted entry with the key. */
  lemma EnvLastWins(env: seq<string>, excluded: seq<string>, includeAll: bool, i: nat)
    requires i < |env| && Admitted(env[i], excluded, includeAll)
    requires forall j :: i < j < |env| ==> !(Admitted(env[j], excluded, includeAll) && EnvKey(env[j]) == EnvKey(env[i]))
    ensures Get(EnvFrom(env, excluded, includeAll), EnvKey(env[i])) == Some(EnvValue(env[i]))
  {
    PutAllLastWins([], env, AdmittedBy(excluded, includeAll), EnvKey, EnvValue, i);
  }

  /** A key listed in the exclusion label never appears, even under "include all". */
  lemma ExclusionWins(env: seq<string>, excluded: seq<string>, includeAll: bool, k: string)
    requires k in excluded
    ensures !HasKey(EnvFrom(env, excluded, includeAll), k)
  {
    EnvKeyPresence(env, excluded, includeAll, k);
  }

  /** Without "include all", every key in the mapping was written as KEY=VALUE. */
  lemma BareKeysNeedIncludeAll(env: seq<string>, excluded: seq<string>, k: string)
    requires HasKey(EnvFrom(env, excluded, false), k)
    ensures exists i :: 0 <= i < |env| && EnvKey(env[i]) == k && EnvValue(env[i]).Some?
  {
    EnvKeyPresence(env, excluded, false, k);
  }

  /** The mapping never holds a key twice. */
  lemma EnvDistinct(env: seq<string>, excluded: seq<string>, includeAll: bool)
    ensures DistinctKeys(EnvFrom(env, excluded, includeAll))
  {
    PutAllDistinct([], env, AdmittedBy(excluded, includeAll), EnvKey, EnvValue);
  }
}
