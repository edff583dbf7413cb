/** What each request on refresh tokens does to every row: rotations and their refusals, expiry, closings. */
module SessionLois {
  import opened Commun
  import opened Jetons

  /** The row of that id. */
  predicate EstLa(s: Registre, i: nat, id: nat) { i < |s.jetons| && s.jetons[i].id == id }

  /** A token that opens a session: its row is neither used nor revoked, and has not expired. */
  predicate Vivant(j: Jeton, t: int) { !j.utilise && !j.revoque && t <= j.expire }

  /** The same rows but row i. */
  ghost predicate SeulRang(js: seq<Jeton>, js': seq<Jeton>, i: nat)
    requires i < |js|
  {
    |js'| == |js| && js' == js[i := js'[i]]
  }

  lemma TrouverExact(s: Registre, i: nat, id: nat)
    requires Sain(s) && EstLa(s, i, id)
    ensures Trouver(s.jetons, id) == Some(i)
  {
  }

  lemma RangSeul(s: Registre, i: nat, id: nat)
    requires Sain(s) && EstLa(s, i, id)
    ensures RevoquerId(s.jetons, id) == s.jetons[i := s.jetons[i].(revoque := true)]
    ensures ConsommerId(s.jetons, id) == s.jetons[i := s.jetons[i].(revoque := true, utilise := true)]
  {
  }

  /** The same row, revoked or not if it is the user's and was not; not marked used. */
  predicate PeutEtreRevoque(j: Jeton, j': Jeton, user: nat) {
    j' == j || (j.user == user && !j.revoque && j' == j.(revoque := true))
  }

  /** No row of that id: refused, nothing moves. */
  lemma RotationInconnue(s: Registre, brut: nat, t: int, expire: int, existe: bool)
    ensures Tourner(s, brut, t, expire, existe).1 == Some(Inconnu) <==> forall i: nat :: !EstLa(s, i, brut)
    ensures Tourner(s, brut, t, expire, existe).1 == Some(Inconnu) ==> Tourner(s, brut, t, expire, existe).0 == s
  {
    if Trouver(s.jetons, brut).Some? { assert EstLa(s, Trouver(s.jetons, brut).value, brut); }
    else { forall i: nat ensures !EstLa(s, i, brut) {} }
  }

  /**
   A rotation succeeds if and only if the token is alive and its user exists; each refusal has its own condition and
   its own effect. The new token is the user's of the one presented, which is used and revoked.
   */
  lemma RotationExacte(s: Registre, i: nat, brut: nat, t: int, expire: int, existe: bool)
    requires Sain(s) && EstLa(s, i, brut)
    ensures var (s', refus) := Tourner(s, brut, t, expire, existe);
      var j := s.jetons[i];
      && (refus.None? <==> Vivant(j, t) && existe)
      && (refus == Some(Compromis) <==> j.utilise)
      && (refus == Some(Revoque) <==> !j.utilise && j.revoque)
      && (refus == Some(Expire) <==> !j.utilise && !j.revoque && j.expire < t)
      && (refus == Some(SansUtilisateur) <==> Vivant(j, t) && !existe)
      && (refus == Some(Revoque) ==> s' == s)
      && (refus == Some(Expire) ==> s' == s.(jetons := s.jetons[i := j.(revoque := true)]))
      && (refus == Some(SansUtilisateur) ==> s' == s.(jetons := s.jetons[i := j.(revoque := true, utilise := true)]))
      && (refus == Some(Compromis) ==> s'.prochain == s.prochain && FermeTous(s.jetons, s'.jetons, j.user, true))
      && (refus.None? ==>
            && s'.prochain == s.prochain + 1 && |s'.jetons| == |s.jetons| + 1
            && s'.jetons[|s.jetons|] == Jeton(s.prochain, j.user, expire, false, false)
            && s'.jetons[i] == j.(revoque := true, utilise := true)
            && (forall k :: 0 <= k < |s.jetons| && k != i ==> PeutEtreRevoque(s.jetons[k], s'.jetons[k], j.user)))
  {
    TrouverExact(s, i, brut);
    RangSeul(s, i, brut);
    if Vivant(s.jetons[i], t) && existe {
      var c := s.(jetons := ConsommerId(s.jetons, brut));
      GenererExact(c, s.jetons[i].user, expire);
    }
  }

  /** A new session adds its row and revokes, among the user's active ones, the oldest in excess; it marks none used. */
  lemma GenererExact(s: Registre, user: nat, expire: int)
    requires Sain(s)
    ensures var s' := Generer(s, user, expire);
      && s'.prochain == s.prochain + 1 && |s'.jetons| == |s.jetons| + 1
      && s'.jetons[|s.jetons|] == Jeton(s.prochain, user, expire, false, false)
      && (forall k :: 0 <= k < |s.jetons| ==> PeutEtreRevoque(s.jetons[k], s'.jetons[k], user))
  {
    var a := Actifs(s.jetons, user);
    RevoquerGarde(s.jetons, a[..EnTrop(|a|)]);
    ActifsSontLa(s.jetons, user);
    RevocationCiblee(s.jetons, user, EnTrop(|a|));
  }

  /** Up to five sessions stay: below five none is closed, and from five on the oldest in excess are. */
  lemma CinqSessions(s: Registre, user: nat, expire: int)
    requires Sain(s)
    ensures var n, a := |Actifs(s.jetons, user)|, Actifs(Generer(s, user, expire).jetons, user);
      && |a| == (if n < 5 then n + 1 else 5) && a[|a| - 1] == s.prochain
      && a[..|a| - 1] == Actifs(s.jetons, user)[n - (|a| - 1)..]
  {
    NouvelleSession(s, user, expire);
    var o, a := Actifs(s.jetons, user), Actifs(Generer(s, user, expire).jetons, user);
    assert a[..|a| - 1] == o[EnTrop(|o|)..];
  }

  /** Every row of the user's that was not revoked is, marked used or not; no other row moved. */
  ghost predicate FermeTous(js: seq<Jeton>, js': seq<Jeton>, user: nat, utilise: bool) {
    && |js'| == |js|
    && forall k :: 0 <= k < |js| ==>
         js'[k] == if js[k].user == user && !js[k].revoque then js[k].(revoque := true, utilise := utilise || js[k].utilise) else js[k]
  }

  /** The closings: one token, everything, one session of one's own, all of them, and the cleaning of expired rows. */
  lemma FermeturesExactes(s: Registre, i: nat, user: nat, t: int)
    requires Sain(s) && i < |s.jetons|
    ensures var id := s.jetons[i].id;
      && Apres(s, Deconnexion(id)) == s.(jetons := s.jetons[i := s.jetons[i].(revoque := true, utilise := true)])
      && Apres(s, FermerSession(user, id)) ==
         (if s.jetons[i].user == user then s.(jetons := s.jetons[i := s.jetons[i].(revoque := true)]) else s)
    ensures Apres(s, DeconnexionGlobale(user)).prochain == s.prochain && FermeTous(s.jetons, Apres(s, DeconnexionGlobale(user)).jetons, user, true)
    ensures Apres(s, FermerSessions(user)).prochain == s.prochain && FermeTous(s.jetons, Apres(s, FermerSessions(user)).jetons, user, false)
    ensures Apres(s, Nettoyage(t)).prochain == s.prochain
            && forall j :: j in Apres(s, Nettoyage(t)).jetons <==> j in s.jetons && t <= j.expire
  {
    TrouverExact(s, i, s.jetons[i].id);
    RangSeul(s, i, s.jetons[i].id);
    NettoyageExact(s.jetons, t);
  }

  lemma {:induction false} NettoyageExact(js: seq<Jeton>, t: int)
    ensures forall j :: j in SansExpires(js, t) <==> j in js && t <= j.expire
  {
    if js != [] {
      NettoyageExact(js[..|js| - 1], t);
      assert js == js[..|js| - 1] + [js[|js| - 1]];
    }
  }

  // ── Rows over runs ──────────────────────────────────────────────────────

  /** Rows are in the order they were drawn: with their ids, this fixes their order. */
  ghost predicate Croissants(js: seq<Jeton>) { forall i, j :: 0 <= i < j < |js| ==> js[i].id < js[j].id }

  lemma {:induction false} NettoyageEnRang(js: seq<Jeton>, t: int)
    requires Croissants(js)
    ensures Croissants(SansExpires(js, t))
  {
    if js != [] {
      var a, x := js[..|js| - 1], js[|js| - 1];
      NettoyageEnRang(a, t);
      NettoyageExact(a, t);
      var r := SansExpires(a, t);
      forall k | 0 <= k < |r| ensures r[k].id < x.id { assert r[k] in a; }
      assert SansExpires(js, t) == r || SansExpires(js, t) == r + [x];
    }
  }

  predicate MemeOrigine(a: Jeton, b: Jeton) { a.id == b.id && a.user == b.user && a.expire == b.expire }

  ghost predicate Issu(js: seq<Jeton>, j: Jeton) { exists i :: 0 <= i < |js| && MemeOrigine(js[i], j) }

  /** A row keeps its user and its expiry; ids drawn later are new. */
  ghost predicate RangsGardes(s: Registre, s': Registre) {
    && s.prochain <= s'.prochain
    && forall k :: 0 <= k < |s'.jetons| && s'.jetons[k].id < s.prochain ==> Issu(s.jetons, s'.jetons[k])
  }

  /** Row by row the same but for what says a token is spent, with maybe one new row. */
  ghost predicate RangParRang(s: Registre, s': Registre) {
    && ((s'.prochain == s.prochain && |s'.jetons| == |s.jetons|)
        || (s'.prochain == s.prochain + 1 && |s'.jetons| == |s.jetons| + 1 && s'.jetons[|s.jetons|].id == s.prochain))
    && forall k :: 0 <= k < |s.jetons| ==> MemeOrigine(s.jetons[k], s'.jetons[k])
  }

  lemma ParRangCroissants(s: Registre, s': Registre)
    requires Sain(s) && Croissants(s.jetons) && RangParRang(s, s')
    ensures Croissants(s'.jetons)
  {
    var n := |s.jetons|;
    forall i, j | 0 <= i < j < |s'.jetons| ensures s'.jetons[i].id < s'.jetons[j].id {
      assert MemeOrigine(s.jetons[i], s'.jetons[i]);
      if j < n { assert MemeOrigine(s.jetons[j], s'.jetons[j]); }
    }
  }

  lemma ParRangGarde(s: Registre, s': Registre)
    requires RangParRang(s, s')
    ensures RangsGardes(s, s')
  {
    forall k | 0 <= k < |s'.jetons| && s'.jetons[k].id < s.prochain ensures Issu(s.jetons, s'.jetons[k]) {
      assert MemeOrigine(s.jetons[k], s'.jetons[k]);
    }
  }

  lemma EtapeParRang(s: Registre, e: Evenement)
    requires Sain(s) && !e.Nettoyage?
    ensures RangParRang(s, Apres(s, e))
  {
    match e
    case Connexion(u, x) => GenererExact(s, u, x);
    case Rotation(b, t, x, existe) =>
      var i := Trouver(s.jetons, b);
      if i.Some? { RotationExacte(s, i.value, b, t, x, existe); }
    case _ =>
  }

  lemma NettoyageGardes(s: Registre, t: int)
    ensures RangsGardes(s, s.(jetons := SansExpires(s.jetons, t)))
  {
    var r := SansExpires(s.jetons, t);
    NettoyageExact(s.jetons, t);
    forall k | 0 <= k < |r| ensures Issu(s.jetons, r[k]) {
      assert r[k] in s.jetons;
      var i :| 0 <= i < |s.jetons| && s.jetons[i] == r[k];
      assert MemeOrigine(s.jetons[i], r[k]);
    }
  }

  lemma EtapeRangs(s: Registre, e: Evenement)
    requires Sain(s) && Croissants(s.jetons)
    ensures Croissants(Apres(s, e).jetons) && RangsGardes(s, Apres(s, e))
  {
    if e.Nettoyage? {
      NettoyageEnRang(s.jetons, e.t);
      NettoyageGardes(s, e.t);
    } else {
      EtapeParRang(s, e);
      ParRangCroissants(s, Apres(s, e));
      ParRangGarde(s, Apres(s, e));
    }
  }

  /** Over every run, cleanings included: rows stay in order, and none changes user or expiry. */
  lemma {:induction false} RunRangs(s: Registre, es: seq<Evenement>)
    requires Sain(s) && Plafonne(s) && Croissants(s.jetons)
    ensures Croissants(Run(s, es).jetons) && RangsGardes(s, Run(s, es))
  {
    if es != [] {
      var a, e := es[..|es| - 1], es[|es| - 1];
      RunRangs(s, a);
      RunSain(s, a);
      EtapeRangs(Run(s, a), e);
      RangsBout(s, Run(s, a), Run(s, es));
    } else {
      forall k | 0 <= k < |s.jetons| ensures Issu(s.jetons, s.jetons[k]) { assert MemeOrigine(s.jetons[k], s.jetons[k]); }
    }
  }

  lemma RangsBout(s: Registre, m: Registre, s': Registre)
    requires RangsGardes(s, m) && RangsGardes(m, s')
    ensures RangsGardes(s, s')
  {
    forall k | 0 <= k < |s'.jetons| && s'.jetons[k].id < s.prochain ensures Issu(s.jetons, s'.jetons[k]) {
      assert Issu(m.jetons, s'.jetons[k]);
      var l :| 0 <= l < |m.jetons| && MemeOrigine(m.jetons[l], s'.jetons[k]);
      assert Issu(s.jetons, m.jetons[l]);
      var i :| 0 <= i < |s.jetons| && MemeOrigine(s.jetons[i], m.jetons[l]);
      assert MemeOrigine(s.jetons[i], s'.jetons[k]);
    }
  }

  /** Over every run, an expired token never opens a session: presented after its expiry, whatever happened before, it is refused. */
  lemma ExpireJamaisTourne(s: Registre, es: seq<Evenement>, i: nat, t: int, expire: int, existe: bool)
    requires Sain(s) && Plafonne(s) && Croissants(s.jetons) && i < |s.jetons| && s.jetons[i].expire < t
    ensures Tourner(Run(s, es), s.jetons[i].id, t, expire, existe).1.Some?
  {
    var f, id := Run(s, es), s.jetons[i].id;
    RunRangs(s, es);
    RunSain(s, es);
    RotationInconnue(f, id, t, expire, existe);
    if Trouver(f.jetons, id).Some? {
      var k := Trouver(f.jetons, id).value;
      assert Issu(s.jetons, f.jetons[k]);
      var l :| 0 <= l < |s.jetons| && MemeOrigine(s.jetons[l], f.jetons[k]);
      assert l == i;
      RotationExacte(f, k, id, t, expire, existe);
    }
  }

  /** Every session of a run was opened by a connection, or by a rotation from a live token of the same user. */
  lemma NouveauVientDe(s: Registre, e: Evenement)
    requires Sain(s) && Apres(s, e).prochain > s.prochain
    ensures |Apres(s, e).jetons| == |s.jetons| + 1
    ensures var neuf := Apres(s, e).jetons[|s.jetons|];
      || e == Connexion(neuf.user, neuf.expire)
      || (e.Rotation? && e.utilisateurExiste && e.expireA == neuf.expire
          && exists i: nat :: EstLa(s, i, e.brut) && Vivant(s.jetons[i], e.t) && s.jetons[i].user == neuf.user)
  {
    match e
    case Connexion(u, x) => GenererExact(s, u, x);
    case Rotation(b, t, x, existe) =>
      RotationInconnue(s, b, t, x, existe);
      if Trouver(s.jetons, b).Some? {
        var i := Trouver(s.jetons, b).value;
        assert EstLa(s, i, b);
        RotationExacte(s, i, b, t, x, existe);
      }
    case _ =>
  }
}
