/** Refresh tokens: rotation, session cap and revocation (auth.service.ts). A raw token stands for its hash; a new one is fresh. */
module Jetons {
  import opened Commun

  const MAX_SESSIONS: nat := 5

  /** A row of refresh_tokens; rows are kept in creation order. */
  datatype Jeton = Jeton(id: nat, user: nat, expire: int, revoque: bool, utilise: bool)

  datatype Registre = Registre(jetons: seq<Jeton>, prochain: nat)

  datatype RefusJeton = Inconnu | Compromis | Revoque | Expire | SansUtilisateur

  predicate EstActif(j: Jeton, user: nat) { j.user == user && !j.revoque && !j.utilise }

  /** The user's active tokens, oldest first. */
  function Actifs(js: seq<Jeton>, user: nat): seq<nat> {
    if js == [] then []
    else
      var a := Actifs(js[..|js| - 1], user);
      if EstActif(js[|js| - 1], user) then a + [js[|js| - 1].id] else a
  }

  function Trouver(js: seq<Jeton>, id: nat): (r: Option<nat>)
    ensures r.Some? ==> r.value < |js| && js[r.value].id == id
    ensures r.None? ==> forall i :: 0 <= i < |js| ==> js[i].id != id
  {
    if js == [] then None else if js[|js| - 1].id == id then Some(|js| - 1) else Trouver(js[..|js| - 1], id)
  }

  /** UPDATE … SET revoked = true WHERE id = … */
  function RevoquerId(js: seq<Jeton>, id: nat): seq<Jeton> {
    seq(|js|, i requires 0 <= i < |js| => if js[i].id == id then js[i].(revoque := true) else js[i])
  }

  function RevoquerIds(js: seq<Jeton>, ids: seq<nat>): seq<Jeton> {
    if ids == [] then js else RevoquerId(RevoquerIds(js, ids[..|ids| - 1]), ids[|ids| - 1])
  }

  /** UPDATE … SET revoked = true, used = true WHERE id = … */
  function ConsommerId(js: seq<Jeton>, id: nat): seq<Jeton> {
    seq(|js|, i requires 0 <= i < |js| => if js[i].id == id then js[i].(revoque := true, utilise := true) else js[i])
  }

  function ToutRevoquer(js: seq<Jeton>, user: nat): seq<Jeton> {
    seq(|js|, i requires 0 <= i < |js| =>
      if js[i].user == user && !js[i].revoque then js[i].(revoque := true, utilise := true) else js[i])
  }

  function SansExpires(js: seq<Jeton>, maintenant: int): seq<Jeton> {
    if js == [] then []
    else
      var a := SansExpires(js[..|js| - 1], maintenant);
      if js[|js| - 1].expire < maintenant then a else a + [js[|js| - 1]]
  }

  /** How many of the oldest sessions a new one pushes out. */
  function EnTrop(actifs: nat): nat { if actifs >= MAX_SESSIONS then actifs - MAX_SESSIONS + 1 else 0 }

  function LimiterSessions(js: seq<Jeton>, user: nat): seq<Jeton> {
    var actifs := Actifs(js, user);
    RevoquerIds(js, actifs[..EnTrop(|actifs|)])
  }

  function Generer(s: Registre, user: nat, expire: int): Registre {
    Registre(LimiterSessions(s.jetons, user) + [Jeton(s.prochain, user, expire, false, false)], s.prochain + 1)
  }

  /** rotateRefreshToken: the new registry, and the new token's id or the refusal. */
  function Tourner(s: Registre, brut: nat, maintenant: int, expire: int, utilisateurExiste: bool): (Registre, Option<RefusJeton>) {
    var i := Trouver(s.jetons, brut);
    if i.None? then (s, Some(Inconnu))
    else
      var j := s.jetons[i.value];
      if j.utilise then (s.(jetons := ToutRevoquer(s.jetons, j.user)), Some(Compromis))
      else if j.revoque then (s, Some(Revoque))
      else if j.expire < maintenant then (s.(jetons := RevoquerId(s.jetons, brut)), Some(Expire))
      else
        var consomme := s.(jetons := ConsommerId(s.jetons, brut));
        if !utilisateurExiste then (consomme, Some(SansUtilisateur)) else (Generer(consomme, j.user, expire), None)
  }

  datatype Evenement =
    | Connexion(user: nat, expire: int)
    | Rotation(brut: nat, t: int, expireA: int, utilisateurExiste: bool)
    | Deconnexion(brut: nat)
    | DeconnexionGlobale(user: nat)
    | Nettoyage(t: int)
    | FermerSession(user: nat, id: nat)
    | FermerSessions(user: nat)

  /** DELETE auth/sessions revokes without marking the tokens used. */
  function FermerTout(js: seq<Jeton>, user: nat): seq<Jeton> {
    seq(|js|, i requires 0 <= i < |js| => if js[i].user == user then js[i].(revoque := true) else js[i])
  }

  function Apres(s: Registre, e: Evenement): Registre {
    match e
    case Connexion(u, x) => Generer(s, u, x)
    case Rotation(b, t, x, existe) => Tourner(s, b, t, x, existe).0
    case Deconnexion(b) => s.(jetons := ConsommerId(s.jetons, b))
    case DeconnexionGlobale(u) => s.(jetons := ToutRevoquer(s.jetons, u))
    case Nettoyage(t) => s.(jetons := SansExpires(s.jetons, t))
    case FermerSession(u, id) =>
      var i := Trouver(s.jetons, id);
      if i.Some? && s.jetons[i.value].user == u then s.(jetons := RevoquerId(s.jetons, id)) else s
    case FermerSessions(u) => s.(jetons := FermerTout(s.jetons, u))
  }

  function Run(s: Registre, es: seq<Evenement>): Registre {
    if es == [] then s else Apres(Run(s, es[..|es| - 1]), es[|es| - 1])
  }

  // ── Laws ────────────────────────────────────────────────────────────────

  /** used implies revoked; ids are unique and already drawn. */
  ghost predicate Sain(s: Registre) {
    && (forall i :: 0 <= i < |s.jetons| ==> (s.jetons[i].utilise ==> s.jetons[i].revoque) && s.jetons[i].id < s.prochain)
    && (forall i, j :: 0 <= i < j < |s.jetons| ==> s.jetons[i].id != s.jetons[j].id)
  }

  ghost predicate Plafonne(s: Registre) { forall u :: |Actifs(s.jetons, u)| <= MAX_SESSIONS }

  /** No row of that id can still open a session. */
  ghost predicate Mort(s: Registre, id: nat) {
    id < s.prochain && forall i :: 0 <= i < |s.jetons| && s.jetons[i].id == id ==> s.jetons[i].revoque
  }

  function Sans(ids: seq<nat>, id: nat): seq<nat> {
    if ids == [] then []
    else
      var a := Sans(ids[..|ids| - 1], id);
      if ids[|ids| - 1] == id then a else a + [ids[|ids| - 1]]
  }

  lemma {:induction false} ActifsSontLa(js: seq<Jeton>, user: nat)
    ensures |Actifs(js, user)| <= |js|
    ensures forall k :: 0 <= k < |Actifs(js, user)| ==> exists i :: 0 <= i < |js| && js[i].id == Actifs(js, user)[k]
    ensures (forall i, j :: 0 <= i < j < |js| ==> js[i].id != js[j].id) ==>
      forall k, l :: 0 <= k < l < |Actifs(js, user)| ==> Actifs(js, user)[k] != Actifs(js, user)[l]
  {
    if js != [] {
      var p := js[..|js| - 1];
      ActifsSontLa(p, user);
      var a, b := Actifs(p, user), Actifs(js, user);
      forall k | 0 <= k < |b| ensures exists i :: 0 <= i < |js| && js[i].id == b[k] {
        if k < |a| { var i :| 0 <= i < |p| && p[i].id == a[k]; assert js[i].id == b[k]; }
        else { assert js[|js| - 1].id == b[k]; }
      }
    }
  }

  lemma ActifsAjout(js: seq<Jeton>, j: Jeton, user: nat)
    ensures Actifs(js + [j], user) == if EstActif(j, user) then Actifs(js, user) + [j.id] else Actifs(js, user)
  {
    assert (js + [j])[..|js|] == js;
  }

  lemma SansAjout(ids: seq<nat>, x: nat, id: nat)
    ensures Sans(ids + [x], id) == if x == id then Sans(ids, id) else Sans(ids, id) + [x]
  {
    assert (ids + [x])[..|ids|] == ids;
  }

  lemma {:induction false} ActifsRevoquerId(js: seq<Jeton>, id: nat, user: nat)
    ensures Actifs(RevoquerId(js, id), user) == Sans(Actifs(js, user), id)
  {
    if js != [] {
      var p, j := js[..|js| - 1], js[|js| - 1];
      var j' := if j.id == id then j.(revoque := true) else j;
      ActifsRevoquerId(p, id, user);
      assert RevoquerId(js, id) == RevoquerId(p, id) + [j'];
      ActifsAjout(RevoquerId(p, id), j', user);
      SansAjout(Actifs(p, user), j.id, id);
    }
  }

  lemma {:induction false} SansPremier(ids: seq<nat>)
    requires ids != [] && forall k, l :: 0 <= k < l < |ids| ==> ids[k] != ids[l]
    ensures Sans(ids, ids[0]) == ids[1..]
  {
    if |ids| > 1 {
      SansPremier(ids[..|ids| - 1]);
      assert ids[1..] == ids[..|ids| - 1][1..] + [ids[|ids| - 1]];
    } else {
      assert Sans(ids[..0], ids[0]) == [];
    }
  }

  lemma LePremierEnMoins(js: seq<Jeton>, user: nat, ids: seq<nat>)
    requires Actifs(js, user) == ids && ids != [] && forall k, l :: 0 <= k < l < |ids| ==> ids[k] != ids[l]
    ensures Actifs(RevoquerId(js, ids[0]), user) == ids[1..]
  {
    ActifsRevoquerId(js, ids[0], user);
    SansPremier(ids);
  }

  /** Revoking the k oldest active tokens leaves the user exactly the others. */
  lemma {:induction false} RevoquerAnciens(js: seq<Jeton>, user: nat, k: nat)
    requires k <= |Actifs(js, user)|
    requires forall i, j :: 0 <= i < j < |js| ==> js[i].id != js[j].id
    ensures var ids := Actifs(js, user)[..k];
      Actifs(RevoquerIds(js, ids), user) == Actifs(js, user)[k..]
  {
    ActifsSontLa(js, user);
    if k > 0 {
      var a := Actifs(js, user);
      RevoquerAnciens(js, user, k - 1);
      assert a[..k][..k - 1] == a[..k - 1] && a[..k][k - 1] == a[k - 1];
      LePremierEnMoins(RevoquerIds(js, a[..k - 1]), user, a[k - 1..]);
      assert a[k - 1..][1..] == a[k..];
    }
  }

  /** Revoking by id keeps every row, its owner and its id, and never revives one. */
  lemma {:induction false} RevoquerGarde(js: seq<Jeton>, ids: seq<nat>)
    ensures var r := RevoquerIds(js, ids);
      |r| == |js| && forall i :: 0 <= i < |js| ==> r[i] == js[i].(revoque := js[i].revoque || js[i].id in ids)
  {
    if ids != [] {
      RevoquerGarde(js, ids[..|ids| - 1]);
      assert forall x :: x in ids <==> x in ids[..|ids| - 1] || x == ids[|ids| - 1];
    }
  }

  lemma {:induction false} ActifsEgaux(a: seq<Jeton>, b: seq<Jeton>, user: nat)
    requires |a| == |b| && forall i :: 0 <= i < |a| ==> a[i].id == b[i].id && EstActif(a[i], user) == EstActif(b[i], user)
    ensures Actifs(a, user) == Actifs(b, user)
  {
    if a != [] { ActifsEgaux(a[..|a| - 1], b[..|b| - 1], user); }
  }

  /** Fewer rows, or fewer active ones, never make more active tokens. */
  lemma {:induction false} ActifsMoins(a: seq<Jeton>, b: seq<Jeton>, user: nat)
    requires |a| == |b| && forall i :: 0 <= i < |a| ==> EstActif(b[i], user) ==> EstActif(a[i], user)
    ensures |Actifs(b, user)| <= |Actifs(a, user)|
  {
    if a != [] { ActifsMoins(a[..|a| - 1], b[..|b| - 1], user); }
  }

  lemma {:induction false} ActifsNettoyes(js: seq<Jeton>, t: int, user: nat)
    ensures |Actifs(SansExpires(js, t), user)| <= |Actifs(js, user)|
  {
    if js != [] {
      var p, j := js[..|js| - 1], js[|js| - 1];
      ActifsNettoyes(p, t, user);
      ActifsAjout(SansExpires(p, t), j, user);
    }
  }

  lemma GenererSain(s: Registre, user: nat, expire: int)
    requires Sain(s)
    ensures Sain(Generer(s, user, expire))
  {
    var a := Actifs(s.jetons, user);
    RevoquerGarde(s.jetons, a[..EnTrop(|a|)]);
  }

  /**
   A new session: the user keeps her newest sessions, at most four, plus the new one;
   everyone else keeps exactly theirs.
   */
  lemma NouvelleSession(s: Registre, user: nat, expire: int)
    requires Sain(s)
    ensures var a := Actifs(s.jetons, user);
      Actifs(Generer(s, user, expire).jetons, user) == a[EnTrop(|a|)..] + [s.prochain]
    ensures forall autre :: autre != user ==> Actifs(Generer(s, user, expire).jetons, autre) == Actifs(s.jetons, autre)
  {
    var a := Actifs(s.jetons, user);
    var k := EnTrop(|a|);
    var limite := LimiterSessions(s.jetons, user);
    var neuf := Jeton(s.prochain, user, expire, false, false);
    RevoquerAnciens(s.jetons, user, k);
    ActifsAjout(limite, neuf, user);
    forall autre | autre != user ensures Actifs(limite + [neuf], autre) == Actifs(s.jetons, autre) {
      LesAutresGardent(s.jetons, user, k, autre);
      ActifsAjout(limite, neuf, autre);
    }
  }

  lemma LesAutresGardent(js: seq<Jeton>, user: nat, k: nat, autre: nat)
    requires autre != user && k <= |Actifs(js, user)| && forall i, j :: 0 <= i < j < |js| ==> js[i].id != js[j].id
    ensures Actifs(RevoquerIds(js, Actifs(js, user)[..k]), autre) == Actifs(js, autre)
  {
    RevoquerGarde(js, Actifs(js, user)[..k]);
    RevocationCiblee(js, user, k);
    ActifsEgaux(js, RevoquerIds(js, Actifs(js, user)[..k]), autre);
  }

  /** Only the user's own rows are revoked by the cap. */
  lemma RevocationCiblee(js: seq<Jeton>, user: nat, k: nat)
    requires k <= |Actifs(js, user)| && forall i, j :: 0 <= i < j < |js| ==> js[i].id != js[j].id
    ensures forall i :: 0 <= i < |js| && js[i].id in Actifs(js, user)[..k] ==> js[i].user == user
  {
    ActifsDuUser(js, user);
    forall i | 0 <= i < |js| && js[i].id in Actifs(js, user)[..k] ensures js[i].user == user {
      assert js[i].id in Actifs(js, user);
    }
  }

  lemma {:induction false} ActifsDuUser(js: seq<Jeton>, user: nat)
    requires forall i, j :: 0 <= i < j < |js| ==> js[i].id != js[j].id
    ensures forall i :: 0 <= i < |js| && js[i].id in Actifs(js, user) ==> EstActif(js[i], user)
  {
    if js != [] {
      var p := js[..|js| - 1];
      ActifsDuUser(p, user);
      ActifsSontLa(p, user);
      forall i | 0 <= i < |js| && js[i].id in Actifs(js, user) ensures EstActif(js[i], user) {
        if i < |p| { assert p[i] == js[i]; }
      }
    }
  }

  lemma PlafondSession(s: Registre, user: nat, expire: int)
    requires Sain(s) && Plafonne(s)
    ensures Sain(Generer(s, user, expire)) && Plafonne(Generer(s, user, expire))
  {
    GenererSain(s, user, expire);
    NouvelleSession(s, user, expire);
  }

  lemma ConsommerSain(s: Registre, id: nat)
    requires Sain(s) && Plafonne(s)
    ensures Sain(s.(jetons := ConsommerId(s.jetons, id))) && Plafonne(s.(jetons := ConsommerId(s.jetons, id)))
  {
    forall u ensures |Actifs(ConsommerId(s.jetons, id), u)| <= MAX_SESSIONS { ActifsMoins(s.jetons, ConsommerId(s.jetons, id), u); }
  }

  lemma RevoquerSain(s: Registre, id: nat, user: nat)
    requires Sain(s) && Plafonne(s)
    ensures Sain(s.(jetons := RevoquerId(s.jetons, id))) && Plafonne(s.(jetons := RevoquerId(s.jetons, id)))
    ensures Sain(s.(jetons := ToutRevoquer(s.jetons, user))) && Plafonne(s.(jetons := ToutRevoquer(s.jetons, user)))
  {
    forall u ensures |Actifs(RevoquerId(s.jetons, id), u)| <= MAX_SESSIONS && |Actifs(ToutRevoquer(s.jetons, user), u)| <= MAX_SESSIONS {
      ActifsMoins(s.jetons, RevoquerId(s.jetons, id), u);
      ActifsMoins(s.jetons, ToutRevoquer(s.jetons, user), u);
    }
  }

  lemma FermerSain(s: Registre, user: nat)
    requires Sain(s) && Plafonne(s)
    ensures Sain(s.(jetons := FermerTout(s.jetons, user))) && Plafonne(s.(jetons := FermerTout(s.jetons, user)))
  {
    forall u ensures |Actifs(FermerTout(s.jetons, user), u)| <= MAX_SESSIONS { ActifsMoins(s.jetons, FermerTout(s.jetons, user), u); }
  }

  /** Cleaning keeps rows as they are, in order. */
  lemma {:induction false} NettoyageGarde(js: seq<Jeton>, t: int)
    ensures forall k :: 0 <= k < |SansExpires(js, t)| ==> SansExpires(js, t)[k] in js
    ensures (forall i, j :: 0 <= i < j < |js| ==> js[i].id != js[j].id) ==>
      forall i, j :: 0 <= i < j < |SansExpires(js, t)| ==> SansExpires(js, t)[i].id != SansExpires(js, t)[j].id
  {
    if js != [] {
      var p, r := js[..|js| - 1], SansExpires(js, t);
      var rp := SansExpires(p, t);
      NettoyageGarde(p, t);
      assert js == p + [js[|js| - 1]];
      forall k | 0 <= k < |r| ensures r[k] in js { if k < |rp| { assert rp[k] in p; } }
    }
  }

  lemma EtapeSaine(s: Registre, e: Evenement)
    requires Sain(s) && Plafonne(s)
    ensures Sain(Apres(s, e)) && Plafonne(Apres(s, e))
  {
    match e
    case Connexion(u, x) => PlafondSession(s, u, x);
    case Rotation(b, t, x, existe) =>
      var i := Trouver(s.jetons, b);
      if i.Some? {
        RevoquerSain(s, b, s.jetons[i.value].user);
        ConsommerSain(s, b);
        PlafondSession(s.(jetons := ConsommerId(s.jetons, b)), s.jetons[i.value].user, x);
      }
    case Deconnexion(b) => ConsommerSain(s, b);
    case DeconnexionGlobale(u) => RevoquerSain(s, 0, u);
    case Nettoyage(t) =>
      NettoyageGarde(s.jetons, t);
      forall u ensures |Actifs(SansExpires(s.jetons, t), u)| <= MAX_SESSIONS { ActifsNettoyes(s.jetons, t, u); }
    case FermerSession(u, id) => RevoquerSain(s, id, u);
    case FermerSessions(u) => FermerSain(s, u);
  }

  /** Over every run: used implies revoked, and nobody ever has more than five active tokens. */
  lemma {:induction false} RunSain(s: Registre, es: seq<Evenement>)
    requires Sain(s) && Plafonne(s)
    ensures Sain(Run(s, es)) && Plafonne(Run(s, es))
  {
    if es != [] {
      RunSain(s, es[..|es| - 1]);
      EtapeSaine(Run(s, es[..|es| - 1]), es[|es| - 1]);
    }
  }

  // ── A consumed token is dead ────────────────────────────────────────────

  lemma GenererLaisseMort(s: Registre, user: nat, expire: int, id: nat)
    requires Mort(s, id)
    ensures Mort(Generer(s, user, expire), id)
  {
    var a := Actifs(s.jetons, user);
    RevoquerGarde(s.jetons, a[..EnTrop(|a|)]);
  }

  lemma EtapeLaisseMort(s: Registre, e: Evenement, id: nat)
    requires Mort(s, id)
    ensures Mort(Apres(s, e), id)
  {
    match e
    case Connexion(u, x) => GenererLaisseMort(s, u, x, id);
    case Rotation(b, t, x, existe) =>
      var i := Trouver(s.jetons, b);
      if i.Some? { GenererLaisseMort(s.(jetons := ConsommerId(s.jetons, b)), s.jetons[i.value].user, x, id); }
    case Nettoyage(t) => NettoyageGarde(s.jetons, t);
    case _ =>
  }

  /** A dead token is refused, now and after any run: a session never comes out of it again. */
  lemma {:induction false} MortPourToujours(s: Registre, es: seq<Evenement>, id: nat, t: int, expire: int, existe: bool)
    requires Mort(s, id)
    ensures Mort(Run(s, es), id) && Tourner(Run(s, es), id, t, expire, existe).1.Some?
  {
    if es != [] {
      MortPourToujours(s, es[..|es| - 1], id, t, expire, existe);
      EtapeLaisseMort(Run(s, es[..|es| - 1]), es[|es| - 1], id);
    }
  }

  /** A rotation gives one new token and kills the one presented; so does a logout. */
  lemma RotationConsomme(s: Registre, brut: nat, t: int, expire: int)
    requires Sain(s) && Tourner(s, brut, t, expire, true).1.None?
    ensures var s' := Tourner(s, brut, t, expire, true).0;
      Mort(s', brut) && s'.prochain == s.prochain + 1
      && exists i :: 0 <= i < |s'.jetons| && s'.jetons[i].id == s.prochain && !s'.jetons[i].revoque && s'.jetons[i].expire == expire
    ensures brut < s.prochain ==> Mort(Apres(s, Deconnexion(brut)), brut)
  {
    var i := Trouver(s.jetons, brut).value;
    var consomme := s.(jetons := ConsommerId(s.jetons, brut));
    var user := s.jetons[i].user;
    assert Mort(consomme, brut);
    GenererLaisseMort(consomme, user, expire, brut);
    var s' := Generer(consomme, user, expire);
    assert s'.jetons[|s'.jetons| - 1].id == s.prochain;
  }

  lemma {:induction false} PlusAucunActif(js: seq<Jeton>, user: nat)
    ensures Actifs(ToutRevoquer(js, user), user) == []
  {
    if js != [] {
      var n := |js| - 1;
      assert ToutRevoquer(js, user)[..n] == ToutRevoquer(js[..n], user);
      PlusAucunActif(js[..n], user);
    }
  }

  /** Presenting a consumed token whose row still exists leaves its user without any active token. */
  lemma CompromissionRevoqueTout(s: Registre, brut: nat, t: int, expire: int, existe: bool)
    requires Trouver(s.jetons, brut).Some? && s.jetons[Trouver(s.jetons, brut).value].utilise
    ensures var (s', refus) := Tourner(s, brut, t, expire, existe);
      refus == Some(Compromis) && Actifs(s'.jetons, s.jetons[Trouver(s.jetons, brut).value].user) == []
  {
    PlusAucunActif(s.jetons, s.jetons[Trouver(s.jetons, brut).value].user);
  }

  // ── The service ─────────────────────────────────────────────────────────

  class ServiceJetons {
    var jetons: seq<Jeton>
    var prochain: nat

    function Vue(): Registre
      reads this
    {
      Registre(jetons, prochain)
    }

    constructor ()
      ensures Vue() == Registre([], 0)
    {
      jetons, prochain := [], 0;
    }

    method Limiter(user: nat)
      modifies this`jetons
      ensures jetons == LimiterSessions(old(jetons), user)
    {
      var actifs := Actifs(jetons, user);
      if |actifs| >= MAX_SESSIONS {
        var aRevoquer := actifs[..|actifs| - MAX_SESSIONS + 1];
        var i := 0;
        while i < |aRevoquer|
          invariant 0 <= i <= |aRevoquer|
          invariant jetons == RevoquerIds(old(jetons), aRevoquer[..i])
        {
          jetons := RevoquerId(jetons, aRevoquer[i]);
          assert aRevoquer[..i + 1][..i] == aRevoquer[..i];
          i := i + 1;
        }
        assert aRevoquer[..|aRevoquer|] == aRevoquer;
      } else {
        assert actifs[..0] == [];
      }
    }

    method GenererEtEnregistrer(user: nat, expire: int) returns (brut: nat)
      modifies this
      ensures Vue() == Generer(old(Vue()), user, expire) && brut == old(prochain)
    {
      brut := prochain;
      prochain := prochain + 1;
      Limiter(user);
      jetons := jetons + [Jeton(brut, user, expire, false, false)];
    }

    method TournerJeton(brut: nat, maintenant: int, expire: int, utilisateurExiste: bool) returns (refus: Option<RefusJeton>, neuf: nat)
      modifies this
      ensures (Vue(), refus) == Tourner(old(Vue()), brut, maintenant, expire, utilisateurExiste)
      ensures refus.None? ==> neuf == old(prochain)
    {
      neuf := 0;
      var i := Trouver(jetons, brut);
      if i.None? { refus := Some(Inconnu); return; }
      var j := jetons[i.value];
      if j.utilise {
        jetons := ToutRevoquer(jetons, j.user);
        refus := Some(Compromis);
        return;
      }
      if j.revoque { refus := Some(Revoque); return; }
      if j.expire < maintenant {
        jetons := RevoquerId(jetons, brut);
        refus := Some(Expire);
        return;
      }
      jetons := ConsommerId(jetons, brut);
      if !utilisateurExiste { refus := Some(SansUtilisateur); return; }
      neuf := GenererEtEnregistrer(j.user, expire);
      refus := None;
    }
  }
}
