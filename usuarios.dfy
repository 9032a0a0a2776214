/** Borrower profiles and the account listing
    (app/api/endpoints/usuarios.py). The listing merges the profiles of
    table `usuarios` with the login accounts of `usuarios_auth`, showing a
    person who has both only once. */
module Usuarios {
  import opened Common
  import opened Models
  import opened Text
  import opened Store

  // ---------------------------------------------------------------------
  // The merged listing of `read_users`

  /** An entry of the listing: a full profile ("completa") or a login
      account without a matching profile ("auth"). */
  datatype Conta = Completa(id: int, perfil: Usuario) | SoAuth(id: int, conta: UsuarioAuth)

  /** The dictionary the listing is built in: keys with their entries, in
      insertion order, as a Python dict keeps them. */
  type Contas = seq<(string, Conta)>

  function Keys(d: Contas): seq<string> {
    if d == [] then [] else [d[0].0] + Keys(d[1..])
  }

  predicate Distinct(s: seq<string>) {
    forall i, j :: 0 <= i < j < |s| ==> s[i] != s[j]
  }

  /** `d.get(k)`. */
  function Lookup(d: Contas, k: string): (r: Option<Conta>)
    ensures r.Some? <==> k in Keys(d)
  {
    if d == [] then None else if d[0].0 == k then Some(d[0].1) else Lookup(d[1..], k)
  }

  /** `d[k] = v`. */
  function Put(d: Contas, k: string, v: Conta): Contas {
    if d == [] then [(k, v)]
    else if d[0].0 == k then [(k, v)] + d[1..]
    else [d[0]] + Put(d[1..], k, v)
  }

  /** A key already present keeps its place and takes the new entry; a new
      key goes last; every other key keeps its entry. */
  lemma {:induction false} PutSpec(d: Contas, k: string, v: Conta)
    ensures Keys(Put(d, k, v)) == if k in Keys(d) then Keys(d) else Keys(d) + [k]
    ensures Lookup(Put(d, k, v), k) == Some(v)
    ensures forall k' :: k' != k ==> Lookup(Put(d, k, v), k') == Lookup(d, k')
  {
    if d == [] {
    } else if d[0].0 == k {
      assert ([(k, v)] + d[1..])[1..] == d[1..];
    } else {
      PutSpec(d[1..], k, v);
      assert ([d[0]] + Put(d[1..], k, v))[1..] == Put(d[1..], k, v);
    }
  }

  /** The distinct elements of `s`, in order of first occurrence: the keys
      a dict ends up with after assigning the keys of `s` in turn. */
  function Dedup(s: seq<string>): (r: seq<string>)
    ensures Distinct(r)
    ensures forall x :: x in r <==> x in s
  {
    if s == [] then []
    else
      var n := |s| - 1;
      var p := Dedup(s[..n]);
      assert s == s[..n] + [s[n]];
      if s[n] in p then p else p + [s[n]]
  }

  /** `key_for`: the registration number when there is a non-empty one,
      otherwise the lower-cased email when it is non-empty, otherwise no
      key. */
  function KeyFor(email: string, matricula: Option<string>): (k: Option<string>)
    ensures k.Some? ==> |k.value| > 0 && (k.value[0] == 'm' || k.value[0] == 'e')
  {
    if matricula.Some? && matricula.value != "" then Some("mat:" + matricula.value)
    else if email != "" then Some("email:" + Lower(email))
    else None
  }

  /** Two people share a key exactly when they have the same non-empty
      registration number, or neither has one and their emails agree up to
      case. */
  lemma KeyForMatches(e1: string, m1: Option<string>, e2: string, m2: Option<string>)
    requires KeyFor(e1, m1).Some?
    ensures KeyFor(e1, m1) == KeyFor(e2, m2) <==>
      if m1.Some? && m1.value != "" then m2 == m1
      else (m2.None? || m2.value == "") && Lower(e1) == Lower(e2)
  {
    var k1 := KeyFor(e1, m1).value;
    if KeyFor(e2, m2).Some? {
      var k2 := KeyFor(e2, m2).value;
      if m1.Some? && m1.value != "" && m2.Some? && m2.value != "" {
        assert k1[4..] == m1.value && k2[4..] == m2.value;
      } else if !(m1.Some? && m1.value != "") && !(m2.Some? && m2.value != "") {
        assert k1[6..] == Lower(e1) && k2[6..] == Lower(e2);
      } else {
        assert k1[0] != k2[0];
      }
    } else if !(m1.Some? && m1.value != "") && !(m2.Some? && m2.value != "") {
      assert |Lower(e2)| == 0 < |Lower(e1)|;
    }
  }

  /** The key a profile is listed under: its own, or `id:<id>`. */
  function ChavePerfil(id: int, u: Usuario): string {
    match KeyFor(u.email, u.matricula)
    case Some(k) => k
    case None => "id:" + FormatInt(id, 0)
  }

  function KeyOfAuth(a: UsuarioAuth): Option<string> {
    KeyFor(a.email, a.matricula)
  }

  /** The key a login account is listed under: its own, or
      `auth_id:<id>`. */
  function ChaveAuth(id: int, a: UsuarioAuth): string {
    match KeyOfAuth(a)
    case Some(k) => k
    case None => "auth_id:" + FormatInt(id, 0)
  }

  predicate AllIn<V>(ids: seq<int>, m: map<int, V>) {
    forall i :: 0 <= i < |ids| ==> ids[i] in m
  }

  /** The first loop: each profile in turn, stored under its key and
      replacing whatever was stored there. */
  function MergePerfis(d: Contas, ps: seq<int>, usuarios: map<int, Usuario>): Contas
    requires AllIn(ps, usuarios)
  {
    if ps == [] then d
    else
      var n := |ps| - 1;
      var u := usuarios[ps[n]];
      Put(MergePerfis(d, ps[..n], usuarios), ChavePerfil(ps[n], u), Completa(ps[n], u))
  }

  /** One step of the second loop: an account whose key is already listed
      is skipped; any other is stored under its key. */
  function PutAuth(d: Contas, id: int, a: UsuarioAuth): Contas {
    var k := KeyOfAuth(a);
    if k.Some? && k.value in Keys(d) then d else Put(d, ChaveAuth(id, a), SoAuth(id, a))
  }

  /** The second loop, over the login accounts in turn. */
  function MergeAuth(d: Contas, ids: seq<int>, contas: map<int, UsuarioAuth>): Contas
    requires AllIn(ids, contas)
  {
    if ids == [] then d
    else
      var n := |ids| - 1;
      PutAuth(MergeAuth(d, ids[..n], contas), ids[n], contas[ids[n]])
  }

  lemma MergePerfisStep(ps: seq<int>, usuarios: map<int, Usuario>, i: int)
    requires AllIn(ps, usuarios) && 0 <= i < |ps|
    ensures AllIn(ps[..i], usuarios) && AllIn(ps[..i + 1], usuarios)
    ensures MergePerfis([], ps[..i + 1], usuarios)
      == Put(MergePerfis([], ps[..i], usuarios), ChavePerfil(ps[i], usuarios[ps[i]]), Completa(ps[i], usuarios[ps[i]]))
  {
    assert ps[..i + 1][..i] == ps[..i];
  }

  lemma MergeAuthStep(d: Contas, ids: seq<int>, contas: map<int, UsuarioAuth>, j: int)
    requires AllIn(ids, contas) && 0 <= j < |ids|
    ensures AllIn(ids[..j], contas) && AllIn(ids[..j + 1], contas)
    ensures MergeAuth(d, ids[..j + 1], contas) == PutAuth(MergeAuth(d, ids[..j], contas), ids[j], contas[ids[j]])
  {
    assert ids[..j + 1][..j] == ids[..j];
  }

  lemma PutAuthCases(d: Contas, id: int, a: UsuarioAuth)
    ensures var k := KeyOfAuth(a);
      PutAuth(d, id, a) ==
        if k.Some? && k.value in Keys(d) then d
        else if k.Some? then Put(d, k.value, SoAuth(id, a))
        else Put(d, "auth_id:" + FormatInt(id, 0), SoAuth(id, a))
  {
  }

  function ChavesPerfis(ps: seq<int>, usuarios: map<int, Usuario>): seq<string>
    requires AllIn(ps, usuarios)
  {
    seq(|ps|, i requires 0 <= i < |ps| => ChavePerfil(ps[i], usuarios[ps[i]]))
  }

  function ChavesAuth(ids: seq<int>, contas: map<int, UsuarioAuth>): seq<string>
    requires AllIn(ids, contas)
  {
    seq(|ids|, i requires 0 <= i < |ids| => ChaveAuth(ids[i], contas[ids[i]]))
  }

  lemma DedupSnoc(t: seq<string>, k: string)
    ensures Dedup(t + [k]) == if k in Dedup(t) then Dedup(t) else Dedup(t) + [k]
  {
    assert (t + [k])[..|t|] == t;
  }

  lemma ChavesPerfisSnoc(ps: seq<int>, usuarios: map<int, Usuario>)
    requires AllIn(ps, usuarios) && ps != []
    ensures AllIn(ps[..|ps| - 1], usuarios)
    ensures ChavesPerfis(ps, usuarios)
      == ChavesPerfis(ps[..|ps| - 1], usuarios) + [ChavePerfil(ps[|ps| - 1], usuarios[ps[|ps| - 1]])]
  {
  }

  lemma ChavesAuthSnoc(ids: seq<int>, contas: map<int, UsuarioAuth>)
    requires AllIn(ids, contas) && ids != []
    ensures AllIn(ids[..|ids| - 1], contas)
    ensures ChavesAuth(ids, contas)
      == ChavesAuth(ids[..|ids| - 1], contas) + [ChaveAuth(ids[|ids| - 1], contas[ids[|ids| - 1]])]
  {
  }

  /** After the first loop the listing has every profile key once, in the
      order the keys were first assigned. */
  lemma {:induction false} MergePerfisKeys(d: Contas, s: seq<string>, ps: seq<int>, usuarios: map<int, Usuario>)
    requires AllIn(ps, usuarios) && Keys(d) == Dedup(s)
    ensures Keys(MergePerfis(d, ps, usuarios)) == Dedup(s + ChavesPerfis(ps, usuarios))
  {
    if ps == [] {
      assert s + ChavesPerfis(ps, usuarios) == s;
    } else {
      var n := |ps| - 1;
      ChavesPerfisSnoc(ps, usuarios);
      MergePerfisKeys(d, s, ps[..n], usuarios);
      var k := ChavePerfil(ps[n], usuarios[ps[n]]);
      PutSpec(MergePerfis(d, ps[..n], usuarios), k, Completa(ps[n], usuarios[ps[n]]));
      var t := s + ChavesPerfis(ps[..n], usuarios);
      assert s + ChavesPerfis(ps, usuarios) == t + [k];
      DedupSnoc(t, k);
    }
  }

  /** The second loop adds every account key that is not yet listed, once,
      in the order of the accounts. */
  lemma {:induction false} MergeAuthKeys(d: Contas, s: seq<string>, ids: seq<int>, contas: map<int, UsuarioAuth>)
    requires AllIn(ids, contas) && Keys(d) == Dedup(s)
    ensures Keys(MergeAuth(d, ids, contas)) == Dedup(s + ChavesAuth(ids, contas))
  {
    if ids == [] {
      assert s + ChavesAuth(ids, contas) == s;
    } else {
      var n := |ids| - 1;
      ChavesAuthSnoc(ids, contas);
      MergeAuthKeys(d, s, ids[..n], contas);
      var k := ChaveAuth(ids[n], contas[ids[n]]);
      PutSpec(MergeAuth(d, ids[..n], contas), k, SoAuth(ids[n], contas[ids[n]]));
      var t := s + ChavesAuth(ids[..n], contas);
      assert s + ChavesAuth(ids, contas) == t + [k];
      DedupSnoc(t, k);
    }
  }

  /** A key is listed after the second loop exactly when it was listed
      before or is the key of one of the accounts. */
  lemma {:induction false} MergeAuthKeysIn(d: Contas, ids: seq<int>, contas: map<int, UsuarioAuth>, x: string)
    requires AllIn(ids, contas)
    ensures x in Keys(MergeAuth(d, ids, contas)) <==> x in Keys(d) || x in ChavesAuth(ids, contas)
  {
    if ids != [] {
      var n := |ids| - 1;
      ChavesAuthSnoc(ids, contas);
      MergeAuthKeysIn(d, ids[..n], contas, x);
      PutSpec(MergeAuth(d, ids[..n], contas), ChaveAuth(ids[n], contas[ids[n]]), SoAuth(ids[n], contas[ids[n]]));
    }
  }

  /** A key is listed after the first loop exactly when it is the key of
      one of the profiles. */
  lemma {:induction false} MergePerfisKeysIn(ps: seq<int>, usuarios: map<int, Usuario>, x: string)
    requires AllIn(ps, usuarios)
    ensures x in Keys(MergePerfis([], ps, usuarios)) <==> x in ChavesPerfis(ps, usuarios)
  {
    if ps != [] {
      var n := |ps| - 1;
      ChavesPerfisSnoc(ps, usuarios);
      MergePerfisKeysIn(ps[..n], usuarios, x);
      PutSpec(MergePerfis([], ps[..n], usuarios), ChavePerfil(ps[n], usuarios[ps[n]]), Completa(ps[n], usuarios[ps[n]]));
    }
  }

  /** The first loop stores only full profiles. */
  lemma {:induction false} MergePerfisCompleta(ps: seq<int>, usuarios: map<int, Usuario>, k: string)
    requires AllIn(ps, usuarios)
    ensures Lookup(MergePerfis([], ps, usuarios), k).Some? ==> Lookup(MergePerfis([], ps, usuarios), k).value.Completa?
  {
    if ps != [] {
      var n := |ps| - 1;
      assert AllIn(ps[..n], usuarios);
      MergePerfisCompleta(ps[..n], usuarios, k);
      PutSpec(MergePerfis([], ps[..n], usuarios), ChavePerfil(ps[n], usuarios[ps[n]]), Completa(ps[n], usuarios[ps[n]]));
    }
  }

  /** A profile that no later profile shares a key with is the entry
      listed under its key after the first loop. */
  lemma {:induction false} LastProfileWins(d: Contas, ps: seq<int>, usuarios: map<int, Usuario>, i: int)
    requires AllIn(ps, usuarios) && 0 <= i < |ps|
    requires forall j :: i < j < |ps| ==> ChavePerfil(ps[j], usuarios[ps[j]]) != ChavePerfil(ps[i], usuarios[ps[i]])
    ensures Lookup(MergePerfis(d, ps, usuarios), ChavePerfil(ps[i], usuarios[ps[i]])) == Some(Completa(ps[i], usuarios[ps[i]]))
  {
    var n := |ps| - 1;
    var k := ChavePerfil(ps[i], usuarios[ps[i]]);
    ChavesPerfisSnoc(ps, usuarios);
    var prev := MergePerfis(d, ps[..n], usuarios);
    var u := usuarios[ps[n]];
    assert MergePerfis(d, ps, usuarios) == Put(prev, ChavePerfil(ps[n], u), Completa(ps[n], u));
    PutSpec(prev, ChavePerfil(ps[n], u), Completa(ps[n], u));
    if i < n {
      var front := ps[..n];
      assert front[i] == ps[i];
      assert forall j :: i < j < |front| ==> front[j] == ps[j];
      LastProfileWins(d, front, usuarios, i);
      assert ChavePerfil(ps[n], u) != k;
    }
  }

  /** The second loop never replaces an entry whose key it could not
      produce itself without a clash: a profile key stays with its
      profile. */
  lemma {:induction false} AuthKeepsEntry(d: Contas, ids: seq<int>, contas: map<int, UsuarioAuth>, k: string)
    requires AllIn(ids, contas) && k in Keys(d) && |k| > 0 && k[0] != 'a'
    ensures Lookup(MergeAuth(d, ids, contas), k) == Lookup(d, k)
  {
    if ids != [] {
      var n := |ids| - 1;
      assert AllIn(ids[..n], contas);
      AuthKeepsEntry(d, ids[..n], contas, k);
      AuthStepKeeps(MergeAuth(d, ids[..n], contas), ids[n], contas[ids[n]], k);
      MergeAuthKeysIn(d, ids[..n], contas, k);
    }
  }

  /** The first account with a key that is not yet listed is the entry
      listed under that key at the end. */
  lemma {:induction false} FirstAuthWins(d: Contas, ids: seq<int>, contas: map<int, UsuarioAuth>, i: int)
    requires AllIn(ids, contas) && 0 <= i < |ids|
    requires KeyOfAuth(contas[ids[i]]).Some? && KeyOfAuth(contas[ids[i]]).value !in Keys(d)
    requires forall j :: 0 <= j < i ==> KeyOfAuth(contas[ids[j]]) != KeyOfAuth(contas[ids[i]])
    ensures Lookup(MergeAuth(d, ids, contas), KeyOfAuth(contas[ids[i]]).value) == Some(SoAuth(ids[i], contas[ids[i]]))
  {
    var k := KeyOfAuth(contas[ids[i]]).value;
    var n := |ids| - 1;
    var front := ids[..n];
    assert AllIn(front, contas);
    var m := MergeAuth(d, front, contas);
    var a := contas[ids[n]];
    assert MergeAuth(d, ids, contas) == PutAuth(m, ids[n], a);
    if i == n {
      assert forall j :: 0 <= j < |front| ==> KeyOfAuth(contas[front[j]]) != Some(k);
      NoEarlierKey(front, contas, k);
      MergeAuthKeysIn(d, front, contas, k);
      assert ChaveAuth(ids[n], a) == k;
      PutSpec(m, k, SoAuth(ids[n], a));
    } else {
      assert front[i] == ids[i];
      assert forall j :: 0 <= j < i ==> front[j] == ids[j];
      FirstAuthWins(d, front, contas, i);
      AuthStepKeeps(m, ids[n], a, k);
    }
  }

  /** One step of the second loop keeps the entry of a listed key that
      does not begin with 'a'. */
  lemma AuthStepKeeps(m: Contas, id: int, a: UsuarioAuth, k: string)
    requires k in Keys(m) && |k| > 0 && k[0] != 'a'
    ensures Lookup(PutAuth(m, id, a), k) == Lookup(m, k)
  {
    PutSpec(m, ChaveAuth(id, a), SoAuth(id, a));
    if !(KeyOfAuth(a).Some? && KeyOfAuth(a).value in Keys(m)) {
      assert ChaveAuth(id, a) != k;
    }
  }

  /** Accounts none of which has key `k` do not produce it in the second
      loop: their fallback keys begin with 'a'. */
  lemma NoEarlierKey(ids: seq<int>, contas: map<int, UsuarioAuth>, k: string)
    requires AllIn(ids, contas) && |k| > 0 && k[0] != 'a'
    requires forall j :: 0 <= j < |ids| ==> KeyOfAuth(contas[ids[j]]) != Some(k)
    ensures k !in ChavesAuth(ids, contas)
  {
    forall j | 0 <= j < |ids| ensures ChavesAuth(ids, contas)[j] != k {
      if KeyOfAuth(contas[ids[j]]).None? {
        assert ChaveAuth(ids[j], contas[ids[j]])[0] == 'a';
      }
    }
  }

  /** No profile with a larger id shares profile `p`'s key. */
  predicate LastOfKey(usuarios: map<int, Usuario>, p: int)
    requires p in usuarios
  {
    forall q :: q in usuarios && q > p ==> ChavePerfil(q, usuarios[q]) != ChavePerfil(p, usuarios[p])
  }

  /** Account `a` has a key and no account with a smaller id has the same
      key. */
  predicate FirstOfKey(contas: map<int, UsuarioAuth>, a: int)
    requires a in contas
  {
    KeyOfAuth(contas[a]).Some? && forall b :: b in contas && b < a ==> KeyOfAuth(contas[b]) != KeyOfAuth(contas[a])
  }

  predicate ProfileHasKey(usuarios: map<int, Usuario>, k: string) {
    exists p :: p in usuarios && ChavePerfil(p, usuarios[p]) == k
  }

  lemma IdAt(ids: seq<int>, s: set<int>, p: int) returns (i: int)
    requires forall k :: k in ids <==> k in s
    requires p in s
    ensures 0 <= i < |ids| && ids[i] == p
  {
    assert p in ids;
    i :| 0 <= i < |ids| && ids[i] == p;
  }

  /** The listing `read_users` returns: the profiles, then the login
      accounts, each in ascending id. */
  ghost function Listing(usuarios: map<int, Usuario>, contas: map<int, UsuarioAuth>): Contas {
    MergeAuth(MergePerfis([], SortedKeys(usuarios), usuarios), SortedKeys(contas), contas)
  }

  /** Every key appears once, in order of first assignment over the
      profile keys and then the account keys. */
  lemma ListingKeys(usuarios: map<int, Usuario>, contas: map<int, UsuarioAuth>)
    ensures Keys(Listing(usuarios, contas))
      == Dedup(ChavesPerfis(SortedKeys(usuarios), usuarios) + ChavesAuth(SortedKeys(contas), contas))
    ensures Distinct(Keys(Listing(usuarios, contas)))
  {
    var ps, qs := SortedKeys(usuarios), SortedKeys(contas);
    MergePerfisKeys([], [], ps, usuarios);
    assert [] + ChavesPerfis(ps, usuarios) == ChavesPerfis(ps, usuarios);
    MergeAuthKeys(MergePerfis([], ps, usuarios), ChavesPerfis(ps, usuarios), qs, contas);
  }

  /** A profile that no profile with a larger id shares a key with is the
      entry listed under its key. */
  lemma ListingProfileWins(usuarios: map<int, Usuario>, contas: map<int, UsuarioAuth>, p: int)
    requires p in usuarios && LastOfKey(usuarios, p)
    ensures Lookup(Listing(usuarios, contas), ChavePerfil(p, usuarios[p])) == Some(Completa(p, usuarios[p]))
  {
    var ps, qs := SortedKeys(usuarios), SortedKeys(contas);
    var i := IdAt(ps, usuarios.Keys, p);
    forall j | i < j < |ps| ensures ChavePerfil(ps[j], usuarios[ps[j]]) != ChavePerfil(ps[i], usuarios[ps[i]]) {
      assert ps[j] > p && ps[j] in usuarios;
    }
    LastProfileWins([], ps, usuarios, i);
    AuthKeepsEntry(MergePerfis([], ps, usuarios), qs, contas, ChavePerfil(p, usuarios[p]));
  }

  /** After the first loop exactly the profile keys are listed. */
  lemma ProfileKeysListed(usuarios: map<int, Usuario>, k: string)
    ensures k in Keys(MergePerfis([], SortedKeys(usuarios), usuarios)) <==> ProfileHasKey(usuarios, k)
  {
    var ps := SortedKeys(usuarios);
    var ks := ChavesPerfis(ps, usuarios);
    MergePerfisKeysIn(ps, usuarios, k);
    if ProfileHasKey(usuarios, k) {
      var p :| p in usuarios && ChavePerfil(p, usuarios[p]) == k;
      var i := IdAt(ps, usuarios.Keys, p);
      assert ks[i] == k;
    }
    if k in ks {
      var j :| 0 <= j < |ks| && ks[j] == k;
      assert ps[j] in usuarios;
    }
  }

  /** A login account whose key some profile has is not listed under it:
      a full profile is ("prefer the complete account"). */
  lemma ListingPrefersProfile(usuarios: map<int, Usuario>, contas: map<int, UsuarioAuth>, k: string)
    requires ProfileHasKey(usuarios, k)
    ensures Lookup(Listing(usuarios, contas), k).Some? && Lookup(Listing(usuarios, contas), k).value.Completa?
  {
    var ps, qs := SortedKeys(usuarios), SortedKeys(contas);
    var p :| p in usuarios && ChavePerfil(p, usuarios[p]) == k;
    ProfileKeysListed(usuarios, k);
    AuthKeepsEntry(MergePerfis([], ps, usuarios), qs, contas, k);
    MergePerfisCompleta(ps, usuarios, k);
  }

  /** The position of account `a` in the scan: no earlier account has its
      key. */
  lemma FirstInScan(contas: map<int, UsuarioAuth>, a: int) returns (i: int)
    requires a in contas && FirstOfKey(contas, a)
    ensures var qs := SortedKeys(contas);
      && 0 <= i < |qs| && qs[i] == a
      && forall j :: 0 <= j < i ==> KeyOfAuth(contas[qs[j]]) != KeyOfAuth(contas[qs[i]])
  {
    var qs := SortedKeys(contas);
    i := IdAt(qs, contas.Keys, a);
    forall j | 0 <= j < i ensures KeyOfAuth(contas[qs[j]]) != KeyOfAuth(contas[qs[i]]) {
      assert qs[j] < qs[i] && qs[j] in contas;
    }
  }

  /** The first login account with a key that no profile has is the entry
      listed under that key. */
  lemma ListingFirstAuthWins(usuarios: map<int, Usuario>, contas: map<int, UsuarioAuth>, a: int)
    requires a in contas && FirstOfKey(contas, a) && !ProfileHasKey(usuarios, KeyOfAuth(contas[a]).value)
    ensures Lookup(Listing(usuarios, contas), KeyOfAuth(contas[a]).value) == Some(SoAuth(a, contas[a]))
  {
    var ps, qs := SortedKeys(usuarios), SortedKeys(contas);
    ProfileKeysListed(usuarios, KeyOfAuth(contas[a]).value);
    var i := FirstInScan(contas, a);
    FirstAuthWins(MergePerfis([], ps, usuarios), qs, contas, i);
  }

  /** `read_users`: the profiles in ascending id, each stored under its
      key; then the login accounts in ascending id, each added under its
      key unless that key is already listed. */
  method ReadUsers(db: Db) returns (r: Contas)
    ensures r == Listing(db.usuarios, db.contas)
  {
    var ps := Scan(db.usuarios, (u: Usuario) => true);
    IncreasingUnique(ps, SortedKeys(db.usuarios));
    r := [];
    var i := 0;
    assert ps[..0] == [];
    while i < |ps|
      invariant 0 <= i <= |ps|
      invariant AllIn(ps[..i], db.usuarios)
      invariant r == MergePerfis([], ps[..i], db.usuarios)
    {
      MergePerfisStep(ps, db.usuarios, i);
      var u := db.usuarios[ps[i]];
      r := Put(r, ChavePerfil(ps[i], u), Completa(ps[i], u));
      i := i + 1;
    }
    assert ps[..i] == ps;
    ghost var perfis := r;

    var qs := Scan(db.contas, (a: UsuarioAuth) => true);
    IncreasingUnique(qs, SortedKeys(db.contas));
    var j := 0;
    assert qs[..0] == [];
    while j < |qs|
      invariant 0 <= j <= |qs|
      invariant AllIn(qs[..j], db.contas)
      invariant r == MergeAuth(perfis, qs[..j], db.contas)
    {
      MergeAuthStep(perfis, qs, db.contas, j);
      r := PutAuth(r, qs[j], db.contas[qs[j]]);
      j := j + 1;
    }
    assert qs[..j] == qs;
  }

  // ---------------------------------------------------------------------
  // The profile handlers

  /** A profile creation body over the table's columns; the type, when
      absent, takes the column default. */
  datatype UsuarioCreate = UsuarioCreate(
    nome: string,
    email: string,
    cpf: Option<string>,
    matricula: Option<string>,
    tipo: Option<TipoUsuario>,
    curso: Option<string>,
    telefone: Option<string>,
    endereco: Option<string>,
    dataNascimento: Option<int>)

  /** The row a creation body becomes: the column defaults for the type,
      the registration time and the active flag. */
  function NovoUsuario(c: UsuarioCreate, now: int): (u: Usuario)
    ensures u.nome == c.nome && u.email == c.email && u.cpf == c.cpf && u.matricula == c.matricula
    ensures u.curso == c.curso && u.telefone == c.telefone && u.endereco == c.endereco
    ensures u.dataNascimento == c.dataNascimento
    ensures c.tipo == None ==> u.tipo == Aluno
    ensures c.tipo.Some? ==> u.tipo == c.tipo.value
    ensures u.dataCadastro == now && u.ativo
  {
    Usuario(c.nome, c.email, c.cpf, c.matricula, TipoInicial(c.tipo), c.curso, c.telefone, c.endereco,
            c.dataNascimento, now, true)
  }

  /** Some profile has exactly this email. */
  predicate EmailTaken(usuarios: map<int, Usuario>, email: string) {
    exists k :: k in usuarios && usuarios[k].email == email
  }

  /** `create_user`: refused with 400 when a profile has the same email
      (compared exactly); a missing CPF or registration number (NOT NULL
      columns) or a clash on either fails at commit. */
  method CreateUser(db: Db, c: UsuarioCreate, now: int) returns (r: Result<int>)
    requires db.Valid()
    modifies db
    ensures db.Valid()
    ensures EmailTaken(old(db.usuarios), c.email) ==> r == Err(BadRequest)
    ensures !EmailTaken(old(db.usuarios), c.email) ==>
      (r.Ok? <==> NotNullHolds(NovoUsuario(c, now)) && CanInsertProfile(old(db.usuarios), NovoUsuario(c, now)))
    ensures !EmailTaken(old(db.usuarios), c.email) && r.Err? ==> r.error == Integrity
    ensures r.Err? ==> unchanged(db)
    ensures r.Ok? ==>
      && r.value !in old(db.usuarios)
      && db.usuarios == old(db.usuarios)[r.value := NovoUsuario(c, now)]
      && db.livros == old(db.livros) && db.contas == old(db.contas) && db.emprestimos == old(db.emprestimos)
      && db.reservas == old(db.reservas) && db.solicitacoes == old(db.solicitacoes)
      && db.autores == old(db.autores) && db.editoras == old(db.editoras)
  {
    var existing := First(db.usuarios, (u: Usuario) => u.email == c.email);
    if existing.Some? {
      var k := existing.value;
      assert k in db.usuarios && db.usuarios[k].email == c.email;
      return Err(BadRequest);
    }
    var novo := NovoUsuario(c, now);
    if !NotNullHolds(novo) || !CanInsertProfile(db.usuarios, novo) {
      return Err(Integrity);
    }
    var id := NewId(db.usuarios);
    ProfileWriteKeepsUnique(db.usuarios, id, novo);
    db.usuarios := db.usuarios[id := novo];
    r := Ok(id);
  }

  /** The fields of the request schemas of `create_user` and
      `update_user` (app/schemas/user.py). None of them names a column of
      `usuarios`. */
  const UserCreateFields: seq<string> := ["name", "registration", "course"]
  const UserUpdateFields: seq<string> := ["name", "registration", "course", "is_active"]

  /** `create_user` as written fails on every body: the schema has no
      `email` attribute for the duplicate lookup to read, and the body's
      fields could not build a row either, as they name no column. */
  lemma {:induction false} CreateUserFailsAsWritten(fields: seq<string>)
    requires forall f :: f in fields ==> f in UserCreateFields
    requires "name" in fields && "registration" in fields
    ensures "email" !in UserCreateFields
    ensures ConstructRow(UsuarioColumns, fields) == Failed(Unhandled)
  {
    assert "name" !in UsuarioColumns;
  }

  /** `update_user` as written changes no column: each key of its body is
      set as a plain attribute, since none names a mapped column. */
  lemma UpdateUserWritesNothingAsWritten(keys: seq<string>)
    requires forall k :: k in keys ==> k in UserUpdateFields
    ensures ColumnsWritten(UsuarioColumns, keys) == []
  {
  }

  /** `read_user`: one profile by id. */
  method ReadUser(db: Db, usuarioId: int) returns (r: Result<Usuario>)
    ensures r.Ok? <==> usuarioId in db.usuarios
    ensures r.Ok? ==> r.value == db.usuarios[usuarioId]
    ensures r.Err? ==> r.error == NotFound
  {
    if usuarioId !in db.usuarios {
      return Err(NotFound);
    }
    r := Ok(db.usuarios[usuarioId]);
  }

  /** A profile update body over the table's columns: the fields that were
      sent, the nullable ones possibly sent as null. */
  datatype UsuarioPatch = UsuarioPatch(
    nome: Option<string>,
    email: Option<string>,
    cpf: Option<Option<string>>,
    matricula: Option<Option<string>>,
    tipo: Option<TipoUsuario>,
    curso: Option<Option<string>>,
    telefone: Option<Option<string>>,
    endereco: Option<Option<string>>,
    ativo: Option<bool>)

  /** `setattr` of every field that was sent. */
  function Aplicar(u: Usuario, p: UsuarioPatch): Usuario {
    u.(nome := p.nome.GetOr(u.nome), email := p.email.GetOr(u.email), cpf := p.cpf.GetOr(u.cpf),
       matricula := p.matricula.GetOr(u.matricula), tipo := p.tipo.GetOr(u.tipo), curso := p.curso.GetOr(u.curso),
       telefone := p.telefone.GetOr(u.telefone), endereco := p.endereco.GetOr(u.endereco), ativo := p.ativo.GetOr(u.ativo))
  }

  /** An update that sends none of email, CPF and registration number
      cannot violate a unique index. */
  lemma UpdateWithoutIdentityFits(usuarios: map<int, Usuario>, id: int, p: UsuarioPatch)
    requires ProfilesUnique(usuarios) && id in usuarios
    requires p.email.None? && p.cpf.None? && p.matricula.None?
    ensures FitsProfiles(usuarios, id, Aplicar(usuarios[id], p))
  {
    forall b | b in usuarios && b != id
      ensures !ProfileClash(Aplicar(usuarios[id], p), usuarios[b])
    {
      assert !ProfileClash(usuarios[id], usuarios[b]);
    }
  }

  /** `update_user`: the profile must exist and carry the caller's own id
      (the account id is compared with the profile id); the fields sent
      replace the stored ones. A CPF or registration number sent as null
      (NOT NULL columns), or a clash with another profile's email, CPF or
      registration number, fails at commit. */
  method UpdateUser(db: Db, caller: CurrentUser, usuarioId: int, p: UsuarioPatch) returns (r: Result<Usuario>)
    requires db.Valid()
    modifies db
    ensures db.Valid()
    ensures usuarioId !in old(db.usuarios) ==> r == Err(NotFound)
    ensures usuarioId in old(db.usuarios) && caller.id != usuarioId ==> r == Err(Forbidden)
    ensures usuarioId in old(db.usuarios) && caller.id == usuarioId ==>
      (r.Ok? <==> NotNullHolds(Aplicar(old(db.usuarios)[usuarioId], p))
                  && FitsProfiles(old(db.usuarios), usuarioId, Aplicar(old(db.usuarios)[usuarioId], p)))
    ensures usuarioId in old(db.usuarios) && caller.id == usuarioId && r.Err? ==> r.error == Integrity
    ensures r.Err? ==> unchanged(db)
    ensures r.Ok? ==>
      && r.value == Aplicar(old(db.usuarios)[usuarioId], p)
      && db.usuarios == old(db.usuarios)[usuarioId := r.value]
      && db.livros == old(db.livros) && db.contas == old(db.contas) && db.emprestimos == old(db.emprestimos)
      && db.reservas == old(db.reservas) && db.solicitacoes == old(db.solicitacoes)
      && db.autores == old(db.autores) && db.editoras == old(db.editoras)
  {
    if usuarioId !in db.usuarios {
      return Err(NotFound);
    }
    if caller.id != usuarioId {
      return Err(Forbidden);
    }
    var novo := Aplicar(db.usuarios[usuarioId], p);
    if !NotNullHolds(novo) || !FitsProfiles(db.usuarios, usuarioId, novo) {
      return Err(Integrity);
    }
    ProfileWriteKeepsUnique(db.usuarios, usuarioId, novo);
    db.usuarios := db.usuarios[usuarioId := novo];
    r := Ok(novo);
  }

  /** `delete_user`: the profile must exist and carry the caller's own id.
      The ORM nulls the NOT NULL `usuario_id` of the profile's loans and
      reservations, so the commit fails and nothing changes while any of
      them references it. */
  method DeleteUser(db: Db, caller: CurrentUser, usuarioId: int) returns (r: Outcome)
    requires db.Valid()
    modifies db
    ensures db.Valid()
    ensures old(ReferencesExist(db.livros, db.usuarios, db.emprestimos, db.reservas)) ==>
            ReferencesExist(db.livros, db.usuarios, db.emprestimos, db.reservas)
    ensures usuarioId !in old(db.usuarios) ==> r == Failed(NotFound)
    ensures usuarioId in old(db.usuarios) ==>
            (r.Done? <==> caller.id == usuarioId && !RowReferencesProfile(old(db.emprestimos), old(db.reservas), usuarioId))
    ensures usuarioId in old(db.usuarios) && caller.id != usuarioId ==> r == Failed(Forbidden)
    ensures usuarioId in old(db.usuarios) && caller.id == usuarioId && r.Failed? ==> r.error == Integrity
    ensures r.Failed? ==> unchanged(db)
    ensures r.Done? ==>
      && db.usuarios == old(db.usuarios) - {usuarioId}
      && db.livros == old(db.livros) && db.contas == old(db.contas) && db.emprestimos == old(db.emprestimos)
      && db.reservas == old(db.reservas) && db.solicitacoes == old(db.solicitacoes)
      && db.autores == old(db.autores) && db.editoras == old(db.editoras)
  {
    if usuarioId !in db.usuarios {
      return Failed(NotFound);
    }
    if caller.id != usuarioId {
      return Failed(Forbidden);
    }
    if RowReferencesProfile(db.emprestimos, db.reservas, usuarioId) {
      return Failed(Integrity);
    }
    db.usuarios := db.usuarios - {usuarioId};
    r := Done;
  }

  /** An update followed by a read of the same profile returns the updated
      profile; a delete followed by a read finds nothing. */
  method UpdateThenRead(db: Db, caller: CurrentUser, p: UsuarioPatch) returns (r1: Result<Usuario>, r2: Result<Usuario>)
    requires db.Valid() && caller.id in db.usuarios
    modifies db
    ensures r1.Ok? <==> NotNullHolds(Aplicar(old(db.usuarios)[caller.id], p))
                        && FitsProfiles(old(db.usuarios), caller.id, Aplicar(old(db.usuarios)[caller.id], p))
    ensures r1.Ok? ==> r2 == Ok(Aplicar(old(db.usuarios)[caller.id], p))
    ensures r1.Err? ==> r2 == Ok(old(db.usuarios)[caller.id])
  {
    r1 := UpdateUser(db, caller, caller.id, p);
    r2 := ReadUser(db, caller.id);
  }

  method DeleteThenRead(db: Db, caller: CurrentUser) returns (r1: Outcome, r2: Result<Usuario>)
    requires db.Valid() && caller.id in db.usuarios
    modifies db
    ensures r1.Done? <==> !RowReferencesProfile(old(db.emprestimos), old(db.reservas), caller.id)
    ensures r1.Done? ==> r2 == Err(NotFound)
    ensures r1.Failed? ==> r1.error == Integrity && r2 == Ok(old(db.usuarios)[caller.id])
  {
    r1 := DeleteUser(db, caller, caller.id);
    r2 := ReadUser(db, caller.id);
  }
}
