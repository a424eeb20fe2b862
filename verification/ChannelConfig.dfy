/** Stored messaging settings and the environment variables that override them.
    Null results stand as empty maps.
*/
module ChannelConfig {
  import opened Text

  /** The variables of the known channels in their order, and those that only take 0 or 1. */
  datatype Schema = Schema(keys: seq<string>, flags: set<string>)

  type Config = map<string, string>

  // ----- One value -----

  /** None: not a string, nothing but blanks, an unknown variable, or a flag other than 0 and 1. */
  function Normal(schema: Schema, key: string, raw: Option<string>): Option<string>
  {
    if key !in schema.keys || raw == None then None
    else
      var v := Trim(DropReturns(raw.value));
      if v == "" || (key in schema.flags && v !in {"0", "1"}) then None else Some(v)
  }

  lemma {:induction false} TrimStartKeeps(s: string)
    ensures var r := TrimStart(s);
            (forall c :: c in r ==> c in s) && (r != "" ==> !IsJsSpace(r[0]))
  {
    if s != "" && IsJsSpace(s[0]) { TrimStartKeeps(s[1..]); }
  }

  lemma {:induction false} TrimEndKeeps(s: string)
    ensures var r := TrimEnd(s);
            r <= s && (forall c :: c in r ==> c in s) && (r != "" ==> !IsJsSpace(r[|r|-1]))
    decreases |s|
  {
    if s != "" && IsJsSpace(s[|s|-1]) { TrimEndKeeps(s[..|s|-1]); }
  }

  lemma NormalTwice(schema: Schema, key: string, raw: Option<string>)
    ensures var n := Normal(schema, key, raw); n.Some? ==> Normal(schema, key, n) == n
  {
    if Normal(schema, key, raw).Some? {
      var s := DropReturns(raw.value);
      var t := TrimStart(s);
      var v := TrimEnd(t);
      TrimStartKeeps(s);
      TrimEndKeeps(t);
      assert v[0] == t[0];
      assert TrimStart(v) == v && TrimEnd(v) == v;
    }
  }

  /** The text between the white space at its edges. */
  predicate IsBetweenSpaces(whole: string, i: nat, v: string)
  {
    && v != "" && i + |v| <= |whole| && whole[i..i+|v|] == v
    && AllSpace(whole[..i]) && AllSpace(whole[i+|v|..])
    && !IsJsSpace(v[0]) && !IsJsSpace(v[|v|-1])
  }

  lemma TrimIs(s: string) returns (i: nat)
    ensures if Trim(s) == "" then AllSpace(s) else IsBetweenSpaces(s, i, Trim(s))
  {
    i := TrimStartIs(s);
    var t := TrimStart(s);
    TrimEndIs(t);
    assert s == s[..i] + t && t == Trim(s) + t[|Trim(s)|..];
    if Trim(s) == "" {
      assert t[0..] == t && forall j :: 0 <= j < i ==> s[j] == s[..i][j];
    } else {
      assert Trim(s)[0] == t[0];
      assert s[i..i+|Trim(s)|] == Trim(s) && s[i+|Trim(s)|..] == t[|Trim(s)|..];
    }
  }

  /** A usable value is the text of a known variable without returns and without white space at its
      edges; a flag has to be 0 or 1. Every other value is unusable. */
  lemma NormalIs(schema: Schema, key: string, raw: Option<string>) returns (i: nat)
    ensures Normal(schema, key, raw).Some? ==>
              && key in schema.keys && raw.Some?
              && IsBetweenSpaces(DropReturns(raw.value), i, Normal(schema, key, raw).value)
              && (key in schema.flags ==> Normal(schema, key, raw).value in {"0", "1"})
    ensures Normal(schema, key, raw).None? ==>
              || key !in schema.keys || raw.None? || AllSpace(DropReturns(raw.value))
              || (key in schema.flags &&
                  exists v :: IsBetweenSpaces(DropReturns(raw.value), i, v) && v !in {"0", "1"})
  {
    i := 0;
    if raw.Some? {
      i := TrimIs(DropReturns(raw.value));
    }
  }

  // ----- Whole configurations -----

  function Lookup<V>(m: map<string, V>, key: string): Option<V>
  {
    if key in m then Some(m[key]) else None
  }

  /** What a variable is set to: its own usable value, else the stored one. */
  function Chosen(schema: Schema, vars: Config, stored: map<string, Option<string>>, key: string): Option<string>
  {
    var own := Normal(schema, key, Lookup(vars, key));
    if own.Some? then own
    else if key in stored then Normal(schema, key, stored[key])
    else None
  }

  /** The usable values in the environment. */
  function FromEnv(schema: Schema, vars: Config): Config
  {
    map k | k in schema.keys && Normal(schema, k, Lookup(vars, k)).Some? :: Normal(schema, k, Lookup(vars, k)).value
  }

  function Effective(schema: Schema, vars: Config, stored: map<string, Option<string>>): Config
  {
    map k | k in schema.keys && Chosen(schema, vars, stored, k).Some? :: Chosen(schema, vars, stored, k).value
  }

  /** The environment after hydration: only variables without a usable value are written. */
  function Hydrated(schema: Schema, vars: Config, stored: map<string, Option<string>>): Config
  {
    vars + map k | k in schema.keys && Normal(schema, k, Lookup(vars, k)) == None &&
                   Chosen(schema, vars, stored, k).Some? ::
             Chosen(schema, vars, stored, k).value
  }

  class Environment {
    var vars: Config

    constructor (vars: Config)
      ensures this.vars == vars
    {
      this.vars := vars;
    }

    /** readMessagingChannelConfigFromEnv, {} standing for null */
    method ReadConfig(schema: Schema) returns (r: Config)
      ensures r == FromEnv(schema, vars)
    {
      r := map[];
      for i := 0 to |schema.keys|
        invariant r == map k | k in FromEnv(schema, vars) && k in schema.keys[..i] :: FromEnv(schema, vars)[k]
      {
        assert schema.keys[..i+1] == schema.keys[..i] + [schema.keys[i]];
        var n := Normal(schema, schema.keys[i], Lookup(vars, schema.keys[i]));
        if n.Some? { r := r[schema.keys[i] := n.value]; }
      }
      assert schema.keys[..|schema.keys|] == schema.keys;
    }

    /** hydrateMessagingChannelConfig, {} standing for null */
    method Hydrate(schema: Schema, stored: map<string, Option<string>>) returns (r: Config)
      requires forall i, j :: 0 <= i < j < |schema.keys| ==> schema.keys[i] != schema.keys[j]
      modifies this
      ensures vars == Hydrated(schema, old(vars), stored)
      ensures r == Effective(schema, old(vars), stored)
    {
      ghost var vars0 := vars;
      r := map[];
      for i := 0 to |schema.keys|
        invariant SomeHydrated(schema, vars0, stored, i, vars, r)
      {
        var key := schema.keys[i];
        KeyIsNew(schema.keys, i);
        assert Lookup(vars, key) == Lookup(vars0, key) && Lookup(r, key) == None;
        var own := Normal(schema, key, Lookup(vars, key));
        var value := if own.Some? then own else if key in stored then Normal(schema, key, stored[key]) else None;
        ghost var vars1, r1 := vars, r;
        if own == None && value.Some? { vars := vars[key := value.value]; }
        if value.Some? { r := r[key := value.value]; }
        OneMoreHydrated(schema, vars0, stored, i, vars1, r1, vars, r);
      }
      AllHydrated(schema, vars0, stored, vars, r);
    }
  }

  /** One variable after hydration. */
  function HydratedAt(schema: Schema, vars: Config, stored: map<string, Option<string>>, k: string): Option<string>
  {
    if Normal(schema, k, Lookup(vars, k)) == None && Chosen(schema, vars, stored, k).Some?
    then Chosen(schema, vars, stored, k) else Lookup(vars, k)
  }

  /** Hydration is done for the first i keys and not begun for the others. */
  ghost predicate SomeHydrated(schema: Schema, vars0: Config, stored: map<string, Option<string>>, i: nat,
                               vars: Config, r: Config)
    requires i <= |schema.keys|
  {
    (forall k :: Lookup(r, k) == if k in schema.keys[..i] then Chosen(schema, vars0, stored, k) else None) &&
    (forall k :: Lookup(vars, k) == if k in schema.keys[..i] then HydratedAt(schema, vars0, stored, k)
                                    else Lookup(vars0, k))
  }

  lemma OneMoreHydrated(schema: Schema, vars0: Config, stored: map<string, Option<string>>, i: nat,
                        vars: Config, r: Config, vars': Config, r': Config)
    requires i < |schema.keys| && SomeHydrated(schema, vars0, stored, i, vars, r)
    requires var key := schema.keys[i];
             var value := Chosen(schema, vars0, stored, key);
             Lookup(r, key) == None && Lookup(vars, key) == Lookup(vars0, key) &&
             r' == UpdatedIf(r, key, value) &&
             vars' == UpdatedIf(vars, key, if Normal(schema, key, Lookup(vars, key)) == None then value else None)
    ensures SomeHydrated(schema, vars0, stored, i + 1, vars', r')
  {
    var key := schema.keys[i];
    var value := Chosen(schema, vars0, stored, key);
    var written := if Normal(schema, key, Lookup(vars, key)) == None then value else None;
    PrefixMembers(schema.keys, i);
    forall k
      ensures Lookup(r', k) == if k == key then value else Lookup(r, k)
      ensures Lookup(vars', k) == if k == key then HydratedAt(schema, vars0, stored, key) else Lookup(vars, k)
    {
      LookupUpdated(r, key, value, k);
      LookupUpdated(vars, key, written, k);
    }
  }

  function UpdatedIf(m: Config, key: string, value: Option<string>): Config
  {
    if value.Some? then m[key := value.value] else m
  }

  lemma LookupUpdated(m: Config, key: string, value: Option<string>, k: string)
    ensures Lookup(UpdatedIf(m, key, value), k) == if k == key && value.Some? then value else Lookup(m, k)
  {
  }

  lemma AllHydrated(schema: Schema, vars0: Config, stored: map<string, Option<string>>, vars: Config, r: Config)
    requires SomeHydrated(schema, vars0, stored, |schema.keys|, vars, r)
    ensures vars == Hydrated(schema, vars0, stored) && r == Effective(schema, vars0, stored)
  {
    var all, after := Effective(schema, vars0, stored), Hydrated(schema, vars0, stored);
    assert schema.keys[..|schema.keys|] == schema.keys;
    forall k ensures Lookup(vars, k) == Lookup(after, k) && Lookup(r, k) == Lookup(all, k) {
      LookupEffective(schema, vars0, stored, k);
      LookupHydrated(schema, vars0, stored, k);
    }
    SameLookups(vars, after);
    SameLookups(r, all);
  }

  lemma KeyIsNew(keys: seq<string>, i: nat)
    requires i < |keys| && forall j, k :: 0 <= j < k < |keys| ==> keys[j] != keys[k]
    ensures keys[i] !in keys[..i] && keys[i] in keys
  {
  }

  lemma PrefixMembers(keys: seq<string>, i: nat)
    requires i < |keys|
    ensures forall k :: k in keys[..i+1] <==> k in keys[..i] || k == keys[i]
  {
    assert keys[..i+1] == keys[..i] + [keys[i]];
  }

  lemma LookupEffective(schema: Schema, vars: Config, stored: map<string, Option<string>>, k: string)
    ensures Lookup(Effective(schema, vars, stored), k) ==
            if k in schema.keys then Chosen(schema, vars, stored, k) else None
  {
  }

  lemma LookupHydrated(schema: Schema, vars: Config, stored: map<string, Option<string>>, k: string)
    ensures Lookup(Hydrated(schema, vars, stored), k) ==
            if k in schema.keys then HydratedAt(schema, vars, stored, k) else Lookup(vars, k)
  {
  }

  lemma SameLookups(a: Config, b: Config)
    requires forall k :: Lookup(a, k) == Lookup(b, k)
    ensures a == b
  {
    assert forall k :: k in a <==> Lookup(a, k).Some?;
    assert forall k :: k in b <==> Lookup(b, k).Some?;
    assert forall k | k in a && k in b :: Lookup(a, k) == Some(a[k]) && Lookup(b, k) == Some(b[k]);
  }

  /** One known variable: its own usable value stays and is taken; without one the stored usable value is
      taken and written; without either the variable stays as it was and is not taken. */
  lemma HydratesEach(schema: Schema, vars: Config, stored: map<string, Option<string>>, k: string)
    requires k in schema.keys
    ensures var own := Normal(schema, k, Lookup(vars, k));
            var kept := if k in stored then Normal(schema, k, stored[k]) else None;
            var written := Lookup(Hydrated(schema, vars, stored), k);
            var taken := Lookup(Effective(schema, vars, stored), k);
            && (own.Some? ==> taken == own && written == Lookup(vars, k))
            && (own.None? && kept.Some? ==> taken == kept && written == kept)
            && (own.None? && kept.None? ==> taken == None && written == Lookup(vars, k))
  {
    LookupHydrated(schema, vars, stored, k);
    LookupEffective(schema, vars, stored, k);
  }

  // ----- Laws -----

  lemma HydratedValue(schema: Schema, vars: Config, stored: map<string, Option<string>>, k: string)
    requires k in schema.keys
    ensures Normal(schema, k, Lookup(Hydrated(schema, vars, stored), k)) == Chosen(schema, vars, stored, k)
    ensures Chosen(schema, Hydrated(schema, vars, stored), stored, k) == Chosen(schema, vars, stored, k)
  {
    LookupHydrated(schema, vars, stored, k);
    NormalTwice(schema, k, Lookup(vars, k));
    if k in stored { NormalTwice(schema, k, stored[k]); }
  }

  lemma LookupFromEnv(schema: Schema, vars: Config, k: string)
    ensures Lookup(FromEnv(schema, vars), k) == if k in schema.keys then Normal(schema, k, Lookup(vars, k)) else None
  {
  }

  /** The environment then holds what hydration returned, and hydrating again returns it and changes nothing. */
  lemma HydrateThenRead(schema: Schema, vars: Config, stored: map<string, Option<string>>)
    ensures var after := Hydrated(schema, vars, stored);
            FromEnv(schema, after) == Effective(schema, vars, stored) &&
            Effective(schema, after, stored) == Effective(schema, vars, stored) &&
            Hydrated(schema, after, stored) == after
  {
    var after, all := Hydrated(schema, vars, stored), Effective(schema, vars, stored);
    forall k
      ensures Lookup(FromEnv(schema, after), k) == Lookup(all, k)
      ensures Lookup(Effective(schema, after, stored), k) == Lookup(all, k)
      ensures Lookup(Hydrated(schema, after, stored), k) == Lookup(after, k)
    {
      LookupFromEnv(schema, after, k);
      LookupEffective(schema, vars, stored, k);
      LookupEffective(schema, after, stored, k);
      LookupHydrated(schema, after, stored, k);
      if k in schema.keys { HydratedValue(schema, vars, stored, k); }
    }
    SameLookups(FromEnv(schema, after), all);
    SameLookups(Effective(schema, after, stored), all);
    SameLookups(Hydrated(schema, after, stored), after);
  }
}
