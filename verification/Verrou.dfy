/** The lock ladder of secret codes: verrou-pin.ts, the counters of login, pin/verify and the identificateur's PIN, and the routes that compare a secret without them. */
module Verrou {
  import opened Commun

  const PALIER: int := 3
  const MINUTE: int := 60 * 1000
  const UNE_HEURE: int := 60 * MINUTE
  const HORIZON_MAX_MS: int := 24 * UNE_HEURE

  /** How long to wait after `echecs` failures in a row. */
  function AttenteApresEchecs(echecs: int): int {
    if echecs <= 0 || echecs % PALIER != 0 then 0
    else if echecs == 3 then 5 * MINUTE
    else if echecs == 6 then 15 * MINUTE
    else UNE_HEURE
  }

  function EssaisAvantAttente(echecs: int): int {
    PALIER - (if echecs < 0 then 0 else echecs) % PALIER
  }

  predicate EstVerrouHerite(jusqua: Option<int>, maintenant: int) {
    jusqua.Some? && jusqua.value - maintenant > HORIZON_MAX_MS
  }

  /** What is announced is true: exactly that many more failures, and no fewer, bring the next wait. */
  lemma AnnonceHonnete(echecs: int)
    requires echecs >= 0
    ensures var d := EssaisAvantAttente(echecs);
      && d >= 1 && AttenteApresEchecs(echecs + d) > 0
      && forall e :: echecs < e < echecs + d ==> AttenteApresEchecs(e) == 0
  {
    assert (echecs + EssaisAvantAttente(echecs)) % PALIER == 0;
    forall e | echecs < e < echecs + EssaisAvantAttente(echecs) ensures AttenteApresEchecs(e) == 0 {
      assert e % PALIER != 0;
    }
  }

  // ── One counter ─────────────────────────────────────────────────────────

  /** failedPinAttempts and lockedUntil (or the identificateur's own pair of columns). */
  datatype Compteur = Compteur(echecs: nat, jusqua: Option<int>)

  datatype Verdict = Attendre(ms: int) | Juste | Faux(essaisRestants: int) | FauxEtAttente(ms: int)

  /** An endless lock inherited from the old policy is lifted. */
  function Lever(c: Compteur, maintenant: int): Compteur {
    if EstVerrouHerite(c.jusqua, maintenant) then Compteur(0, None) else c
  }

  /** A try. `remet`: a right code resets the counter (login does so only for an account in good standing). */
  function Essayer(c: Compteur, maintenant: int, juste: bool, remet: bool): (Compteur, Verdict) {
    var leve := Lever(c, maintenant);
    if leve.jusqua.Some? && leve.jusqua.value > maintenant then (leve, Attendre(leve.jusqua.value - maintenant))
    else if juste then (if remet then Compteur(0, None) else leve, Juste)
    else
      var e := leve.echecs + 1;
      var attente := AttenteApresEchecs(e);
      if attente > 0 then (Compteur(e, Some(maintenant + attente)), FauxEtAttente(attente))
      else (leve.(echecs := e), Faux(EssaisAvantAttente(e)))
  }

  /** The counter columns of a user row, updated in place by the routes. */
  class VerrouPin {
    var echecs: nat
    var jusqua: Option<int>

    function Vue(): Compteur
      reads this
    {
      Compteur(echecs, jusqua)
    }

    constructor ()
      ensures Vue() == Compteur(0, None)
    {
      echecs, jusqua := 0, None;
    }

    method Remettre()
      modifies this
      ensures Vue() == Compteur(0, None)
    {
      echecs, jusqua := 0, None;
    }

    method Tentative(maintenant: int, juste: bool, remet: bool) returns (v: Verdict)
      modifies this
      ensures (Vue(), v) == Essayer(old(Vue()), maintenant, juste, remet)
    {
      if EstVerrouHerite(jusqua, maintenant) { Remettre(); }
      if jusqua.Some? && jusqua.value > maintenant { return Attendre(jusqua.value - maintenant); }
      if juste {
        if remet { Remettre(); }
        return Juste;
      }
      var essais := echecs + 1;
      var attente := AttenteApresEchecs(essais);
      if attente > 0 {
        echecs, jusqua := essais, Some(maintenant + attente);
        return FauxEtAttente(attente);
      }
      echecs := essais;
      return Faux(EssaisAvantAttente(essais));
    }
  }

  // ── Runs ────────────────────────────────────────────────────────────────

  datatype Evenement = Essai(t: int, juste: bool, remet: bool) | Deblocage(t: int)

  function Apres(c: Compteur, e: Evenement): Compteur {
    match e
    case Essai(t, juste, remet) => Essayer(c, t, juste, remet).0
    case Deblocage(_) => Compteur(0, None)
  }

  function Run(c: Compteur, es: seq<Evenement>): Compteur {
    if es == [] then c else Apres(Run(c, es[..|es| - 1]), es[|es| - 1])
  }

  /** A wrong code was compared (a try during a wait is refused without comparing). */
  predicate CodeFauxCompare(c: Compteur, e: Evenement) {
    e.Essai? && var v := Essayer(c, e.t, e.juste, e.remet).1; v.Faux? || v.FauxEtAttente?
  }

  /** A right code accepted, or an explicit unlock: the counter starts again from zero. */
  predicate Remet(c: Compteur, e: Evenement) {
    e.Deblocage? || (e.remet && Essayer(c, e.t, e.juste, e.remet).1.Juste?)
  }

  predicate Chronologique(es: seq<Evenement>) {
    forall i, j :: 0 <= i < j < |es| ==> es[i].t <= es[j].t
  }

  /** No reset anywhere in the run. */
  ghost predicate SansRemise(c: Compteur, es: seq<Evenement>) {
    forall k :: 0 <= k < |es| ==> !Remet(Run(c, es[..k]), es[k])
  }

  /** How many wrong codes the run compares in the 24 hours from `debut`, end excluded. */
  function FauxDansLaJournee(c: Compteur, es: seq<Evenement>, debut: int): nat {
    if es == [] then 0
    else
      var a, e := es[..|es| - 1], es[|es| - 1];
      FauxDansLaJournee(c, a, debut)
      + if CodeFauxCompare(Run(c, a), e) && debut <= e.t < debut + HORIZON_MAX_MS then 1 else 0
  }

  // ── The bound ───────────────────────────────────────────────────────────

  /** The waits the ladder imposes before failure number e can be compared. */
  function Cumul(e: nat): int {
    if e == 0 then 0 else Cumul(e - 1) + AttenteApresEchecs(e - 1)
  }

  /** The waits of the first g steps of the ladder. */
  function Paliers(g: nat): int { if g == 0 then 0 else if g == 1 then 5 * MINUTE else 20 * MINUTE + (g - 2) * UNE_HEURE }

  lemma {:induction false} CumulFerme(e: nat)
    requires e >= 1
    ensures Cumul(e) == Paliers((e - 1) / 3)
  {
    if e > 1 { CumulFerme(e - 1); }
  }

  lemma PaliersJournee(g1: nat, g: nat)
    requires g1 <= g && Paliers(g) - Paliers(g1) < HORIZON_MAX_MS
    ensures g - g1 <= 25
    ensures g1 >= 2 ==> g - g1 <= 23
  {
  }

  lemma CumulJournee(e1: nat, e: nat)
    requires 1 <= e1 <= e && Cumul(e) - Cumul(e1) < HORIZON_MAX_MS
    ensures e - e1 < 78
    ensures e1 >= 7 ==> e - e1 < 72
  {
    CumulFerme(e1);
    CumulFerme(e);
    PaliersJournee((e1 - 1) / 3, (e - 1) / 3);
  }

  /** Since failure number e1 at instant t1, the ladder has kept its pace: the next failure cannot come early. */
  ghost predicate Cadence(c: Compteur, maintenant: int, e1: nat, t1: int) {
    && 1 <= e1 <= c.echecs && t1 <= maintenant
    && (maintenant >= t1 + Cumul(c.echecs + 1) - Cumul(e1)
        || (c.jusqua.Some? && c.jusqua.value >= t1 + Cumul(c.echecs + 1) - Cumul(e1)))
    && (c.jusqua.Some? ==> c.jusqua.value <= maintenant + UNE_HEURE)
  }

  lemma CadenceDebut(c: Compteur, e: Evenement)
    requires CodeFauxCompare(c, e)
    ensures Cadence(Apres(c, e), e.t, Apres(c, e).echecs, e.t)
    ensures Apres(c, e).echecs >= 1
    ensures !EstVerrouHerite(c.jusqua, e.t) ==> Apres(c, e).echecs == c.echecs + 1
  {
  }

  lemma CadenceSuite(c: Compteur, maintenant: int, e1: nat, t1: int, e: Evenement)
    requires Cadence(c, maintenant, e1, t1) && maintenant <= e.t && !Remet(c, e)
    ensures Cadence(Apres(c, e), e.t, e1, t1)
    ensures if CodeFauxCompare(c, e) then Apres(c, e).echecs == c.echecs + 1 && e.t - t1 >= Cumul(c.echecs + 1) - Cumul(e1)
            else Apres(c, e).echecs == c.echecs
  {
  }

  /** The window's failures so far run from an anchor e1, t1 inside it to the current count. */
  ghost predicate Fenetre(c: Compteur, maintenant: int, debut: int, n: nat, e1: nat, t1: int) {
    && n <= 78
    && (e1 >= 7 ==> n <= 72)
    && (n > 0 ==> debut <= t1 && Cadence(c, maintenant, e1, t1)
                  && (maintenant < debut + HORIZON_MAX_MS ==> n == c.echecs - e1 + 1))
  }

  ghost predicate HorsEchelle(c: Compteur, es: seq<Evenement>) {
    es != [] && EstVerrouHerite(c.jusqua, es[0].t)
  }

  lemma PrefixeSansRemise(c: Compteur, es: seq<Evenement>, k: nat)
    requires SansRemise(c, es) && k <= |es|
    ensures SansRemise(c, es[..k])
  {
    forall j | 0 <= j < k ensures !Remet(Run(c, es[..k][..j]), es[..k][j]) { assert es[..k][..j] == es[..j]; }
  }

  /** One more event of the run. */
  lemma FenetreSuite(m: Compteur, avant: int, e: Evenement, debut: int, n: nat, e1: nat, t1: int) returns (e1': nat, t1': int)
    requires Fenetre(m, avant, debut, n, e1, t1) && avant <= e.t && !Remet(m, e)
    ensures var n' := n + if CodeFauxCompare(m, e) && debut <= e.t < debut + HORIZON_MAX_MS then 1 else 0;
      && Fenetre(Apres(m, e), e.t, debut, n', e1', t1')
      && (n > 0 ==> e1' == e1) && (n == 0 && n' > 0 ==> e1' == Apres(m, e).echecs)
  {
    e1', t1' := e1, t1;
    if n > 0 {
      CadenceSuite(m, avant, e1, t1, e);
      if CodeFauxCompare(m, e) && e.t < debut + HORIZON_MAX_MS { CumulJournee(e1, m.echecs + 1); }
    } else if CodeFauxCompare(m, e) {
      CadenceDebut(m, e);
      e1', t1' := Apres(m, e).echecs, e.t;
    }
  }

  lemma {:induction false} FenetreTient(c: Compteur, es: seq<Evenement>, debut: int) returns (e1: nat, t1: int)
    requires es != [] && Chronologique(es) && SansRemise(c, es)
    ensures Fenetre(Run(c, es), es[|es| - 1].t, debut, FauxDansLaJournee(c, es, debut), e1, t1)
    ensures !HorsEchelle(c, es) ==> Run(c, es).echecs >= c.echecs && !EstVerrouHerite(Run(c, es).jusqua, es[|es| - 1].t)
    ensures !HorsEchelle(c, es) && c.echecs >= 6 && FauxDansLaJournee(c, es, debut) > 0 ==> e1 >= 7
    decreases |es|
  {
    var n := |es| - 1;
    var a, e := es[..n], es[n];
    var m := Run(c, a);
    assert !Remet(m, e);
    e1, t1 := 0, 0;
    if a == [] {
      assert m == c;
      assert FauxDansLaJournee(c, a, debut) == 0;
      if CodeFauxCompare(m, e) { CadenceDebut(m, e); e1, t1 := Run(c, es).echecs, e.t; }
    } else {
      PrefixeSansRemise(c, es, n);
      e1, t1 := FenetreTient(c, a, debut);
      if CodeFauxCompare(m, e) { CadenceDebut(m, e); }
      e1, t1 := FenetreSuite(m, a[|a| - 1].t, e, debut, FauxDansLaJournee(c, a, debut), e1, t1);
    }
  }

  /**
   With tries one after the other and no reset, any 24 hours see at most 78 wrong codes compared
   through a counter, from any state of it; at most 72 once six failures are behind.
   */
  lemma BorneParJour(c: Compteur, es: seq<Evenement>, debut: int)
    requires Chronologique(es) && SansRemise(c, es)
    ensures FauxDansLaJournee(c, es, debut) <= 78
    ensures c.echecs >= 6 && !HorsEchelle(c, es) ==> FauxDansLaJournee(c, es, debut) <= 72
  {
    if es != [] { var e1, t1 := FenetreTient(c, es, debut); }
  }

  /** The fastest attacker: failure number k as soon as the ladder allows it. */
  function Rafale(n: nat): seq<Evenement> {
    if n == 0 then [] else Rafale(n - 1) + [Essai(Cumul(n), false, false)]
  }

  lemma {:induction false} RafaleChronologique(n: nat)
    ensures |Rafale(n)| == n && Chronologique(Rafale(n))
    ensures forall k :: 0 <= k < n ==> Rafale(n)[k] == Essai(Cumul(k + 1), false, false) && 0 <= Cumul(k + 1) <= Cumul(n)
  {
    if n > 0 {
      RafaleChronologique(n - 1);
      CumulCroit(n);
    }
  }

  lemma {:induction false} CumulCroit(n: nat)
    requires n > 0
    ensures 0 <= Cumul(n - 1) <= Cumul(n)
  {
    if n > 1 { CumulCroit(n - 1); }
  }

  lemma EchecSuivant(c: Compteur, n: nat)
    requires n > 0 && c.echecs == n - 1 && (c.jusqua.Some? ==> c.jusqua.value <= Cumul(n))
    ensures var e := Essai(Cumul(n), false, false);
      CodeFauxCompare(c, e) && Apres(c, e).echecs == n && (Apres(c, e).jusqua.Some? ==> Apres(c, e).jusqua.value <= Cumul(n + 1))
  {
    CumulCroit(n + 1);
  }

  lemma {:induction false} RafaleToutComparee(n: nat)
    requires n <= 78
    ensures FauxDansLaJournee(Compteur(0, None), Rafale(n), 0) == n
    ensures var c := Run(Compteur(0, None), Rafale(n)); c.echecs == n && (c.jusqua.Some? ==> c.jusqua.value <= Cumul(n + 1))
  {
    if n > 0 {
      var c0, es, e := Compteur(0, None), Rafale(n), Essai(Cumul(n), false, false);
      RafaleToutComparee(n - 1);
      EchecSuivant(Run(c0, Rafale(n - 1)), n);
      CumulDansLaJournee(n);
      assert es[..|es| - 1] == Rafale(n - 1) && es[|es| - 1] == e;
      assert Run(c0, es) == Apres(Run(c0, Rafale(n - 1)), e);
    }
  }

  lemma CumulDansLaJournee(n: nat)
    requires 1 <= n <= 78
    ensures 0 <= Cumul(n) < HORIZON_MAX_MS
  {
    CumulFerme(n);
  }

  /** The bound of 78 is reached from a fresh counter: through a counter, 72 a day holds only from the second day on. */
  lemma BorneAtteinte()
    ensures var c := Compteur(0, None);
      Chronologique(Rafale(78)) && SansRemise(c, Rafale(78)) && FauxDansLaJournee(c, Rafale(78), 0) == 78
  {
    RafaleToutComparee(78);
    RafaleChronologique(78);
  }

  /** A lock of the ladder is never taken for an inherited one, and so never lifted early. */
  ghost predicate SurEchelle(c: Compteur, maintenant: int) {
    c.jusqua.Some? ==> c.jusqua.value <= maintenant + UNE_HEURE
  }

  lemma {:induction false} JamaisPrisPourHerite(c: Compteur, es: seq<Evenement>, depart: int, suite: int)
    requires SurEchelle(c, depart) && Chronologique(es) && (forall k :: 0 <= k < |es| ==> depart <= es[k].t <= suite) && depart <= suite
    ensures SurEchelle(Run(c, es), suite) && !EstVerrouHerite(Run(c, es).jusqua, suite)
    ensures Lever(Run(c, es), suite) == Run(c, es)
  {
    if es != [] {
      var a := es[..|es| - 1];
      JamaisPrisPourHerite(c, a, depart, es[|es| - 1].t);
    }
  }

  // ── Two counters on one account, and the routes that use neither ────────

  datatype Secret = MotDePasse | Pin | PinIdentificateur

  /**
   An account: the actor's counter, shared by login and pin/verify, and the identificateur's own. A PIN may
   be set, and asked for; the password is there until the account is deleted.
   */
  datatype Compte = Compte(acteur: Compteur, identificateur: Compteur, pinPose: bool, pinExige: bool, motDePasse: bool)

  /** The routes that compare a code with a secret without reading or writing a counter. */
  datatype RouteLibre = PoserPin | DesactiverPin | ChangerMotDePasse | SupprimerCompte

  /** A request whose code is well formed; `juste` says whether it is the secret the route compares it with. */
  datatype Requete =
    | Login(t: int, juste: bool, compteActif: bool)
    | VerifierPin(t: int, juste: bool)
    | DebloquerActeur(t: int)
    | VerifierPinIdentificateur(t: int, juste: bool)
    | ChangerPinIdentificateur(t: int, juste: bool)
    | ReinitialiserPinIdentificateur(t: int)
    | SansCompteur(t: int, juste: bool, route: RouteLibre)

  datatype Voie = Acteur | Identificateur

  function CompteurDe(c: Compte, v: Voie): Compteur { if v == Acteur then c.acteur else c.identificateur }

  /** The secrets each counter stands for. */
  function SecretsDe(v: Voie): set<Secret> { if v == Acteur then {MotDePasse, Pin} else {PinIdentificateur} }

  /** The try or the unlock a request makes on a counter. */
  function Sur(c: Compte, r: Requete, v: Voie): Option<Evenement> {
    match r
    case Login(t, juste, actif) => if v == Acteur && c.motDePasse then Some(Essai(t, juste, actif)) else None
    case VerifierPin(t, juste) => if v == Acteur && c.pinPose then Some(Essai(t, juste, true)) else None
    case DebloquerActeur(t) => if v == Acteur then Some(Deblocage(t)) else None
    case VerifierPinIdentificateur(t, juste) => if v == Identificateur then Some(Essai(t, juste, true)) else None
    case ChangerPinIdentificateur(t, juste) => if v == Identificateur then Some(Essai(t, juste, true)) else None
    case ReinitialiserPinIdentificateur(t) => if v == Identificateur then Some(Deblocage(t)) else None
    case _ => None
  }

  /** The secret such a route compares the code with, when there is one to compare it with. */
  function SecretDe(c: Compte, route: RouteLibre): Option<Secret> {
    match route
    case PoserPin => if c.pinExige && c.pinPose then Some(Pin) else None
    case DesactiverPin => if c.pinPose then Some(Pin) else None
    case ChangerMotDePasse => if c.motDePasse then Some(MotDePasse) else None
    case SupprimerCompte => if c.motDePasse then Some(MotDePasse) else None
  }

  /** What it does once past the comparison: a new PIN needs none before the first, the others do nothing without their secret. */
  function ApresRoute(c: Compte, route: RouteLibre): Compte {
    match route
    case PoserPin => c.(pinPose := true, pinExige := true)
    case DesactiverPin => if c.pinPose then c.(pinPose := false, pinExige := false) else c
    case ChangerMotDePasse => c
    case SupprimerCompte => c.(motDePasse := false)
  }

  function ApresRequete(c: Compte, r: Requete): Compte {
    match r
    case Login(t, juste, actif) => if c.motDePasse then c.(acteur := Essayer(c.acteur, t, juste, actif).0) else c
    case VerifierPin(t, juste) => if c.pinPose then c.(acteur := Essayer(c.acteur, t, juste, true).0) else c
    case DebloquerActeur(_) => c.(acteur := Compteur(0, None))
    case VerifierPinIdentificateur(t, juste) => c.(identificateur := Essayer(c.identificateur, t, juste, true).0)
    case ChangerPinIdentificateur(t, juste) => c.(identificateur := Essayer(c.identificateur, t, juste, true).0)
    case ReinitialiserPinIdentificateur(_) => c.(identificateur := Compteur(0, None))
    case SansCompteur(_, juste, route) => if SecretDe(c, route).None? || juste then ApresRoute(c, route) else c
  }

  function RunCompte(c: Compte, rs: seq<Requete>): Compte {
    if rs == [] then c else ApresRequete(RunCompte(c, rs[..|rs| - 1]), rs[|rs| - 1])
  }

  /** The secret a request compares a wrong code with, if it does: a try during a wait compares nothing. */
  function CompareFaux(c: Compte, r: Requete): Option<Secret> {
    match r
    case Login(t, juste, actif) => if c.motDePasse && CodeFauxCompare(c.acteur, Essai(t, juste, actif)) then Some(MotDePasse) else None
    case VerifierPin(t, juste) => if c.pinPose && CodeFauxCompare(c.acteur, Essai(t, juste, true)) then Some(Pin) else None
    case VerifierPinIdentificateur(t, juste) =>
      if CodeFauxCompare(c.identificateur, Essai(t, juste, true)) then Some(PinIdentificateur) else None
    case ChangerPinIdentificateur(t, juste) =>
      if CodeFauxCompare(c.identificateur, Essai(t, juste, true)) then Some(PinIdentificateur) else None
    case SansCompteur(_, juste, route) => if juste then None else SecretDe(c, route)
    case _ => None
  }

  /** The request compares a wrong code with one of the secrets. */
  predicate FauxSur(c: Compte, r: Requete, secrets: set<Secret>) { CompareFaux(c, r).Some? && CompareFaux(c, r).value in secrets }

  predicate DansLaJournee(t: int, debut: int) { debut <= t < debut + HORIZON_MAX_MS }

  /** How many wrong codes a run compares with the secrets in the 24 hours from `debut`, by whatever route. */
  function CodesFaux(c: Compte, rs: seq<Requete>, secrets: set<Secret>, debut: int): nat {
    if rs == [] then 0
    else
      var a, r := rs[..|rs| - 1], rs[|rs| - 1];
      CodesFaux(c, a, secrets, debut) + if FauxSur(RunCompte(c, a), r, secrets) && DansLaJournee(r.t, debut) then 1 else 0
  }

  /** How many of them by the routes that use no counter. */
  function FauxSansCompteur(c: Compte, rs: seq<Requete>, secrets: set<Secret>, debut: int): nat {
    if rs == [] then 0
    else
      var a, r := rs[..|rs| - 1], rs[|rs| - 1];
      FauxSansCompteur(c, a, secrets, debut)
      + if FauxSur(RunCompte(c, a), r, secrets) && DansLaJournee(r.t, debut) && r.SansCompteur? then 1 else 0
  }

  /** What a counter sees of a run. */
  function Trace(c: Compte, rs: seq<Requete>, v: Voie): seq<Evenement> {
    if rs == [] then []
    else
      var a := Trace(c, rs[..|rs| - 1], v);
      var e := Sur(RunCompte(c, rs[..|rs| - 1]), rs[|rs| - 1], v);
      if e.Some? then a + [e.value] else a
  }

  function T(r: Requete): int { r.t }

  predicate EnOrdre(rs: seq<Requete>) { forall i, j :: 0 <= i < j < |rs| ==> T(rs[i]) <= T(rs[j]) }

  lemma {:induction false} TraceChronologique(c: Compte, rs: seq<Requete>, v: Voie, borne: int)
    requires EnOrdre(rs) && forall i :: 0 <= i < |rs| ==> T(rs[i]) <= borne
    ensures Chronologique(Trace(c, rs, v)) && forall e :: e in Trace(c, rs, v) ==> e.t <= borne
  {
    if rs != [] { TraceChronologique(c, rs[..|rs| - 1], v, T(rs[|rs| - 1])); }
  }

  lemma RunAjout(c: Compteur, es: seq<Evenement>, e: Evenement)
    ensures Run(c, es + [e]) == Apres(Run(c, es), e)
  {
    assert (es + [e])[..|es|] == es;
  }

  lemma UneRequete(c: Compte, r: Requete, v: Voie)
    ensures CompteurDe(ApresRequete(c, r), v) == if Sur(c, r, v).Some? then Apres(CompteurDe(c, v), Sur(c, r, v).value) else CompteurDe(c, v)
  {
  }

  /** A wrong code is seen by the counter of its secret, unless its route uses none. */
  lemma UneComparaison(c: Compte, r: Requete, v: Voie)
    ensures var e := Sur(c, r, v);
      && (e.Some? ==> !r.SansCompteur? && e.value.t == r.t)
      && (!r.SansCompteur? ==> (FauxSur(c, r, SecretsDe(v)) <==> e.Some? && CodeFauxCompare(CompteurDe(c, v), e.value)))
      && (r.SansCompteur? && v == Identificateur ==> !FauxSur(c, r, SecretsDe(v)))
  {
  }

  /** Each counter sees its own routes only: login and pin/verify for the actor's, the PIN routes for the identificateur's. */
  lemma {:induction false} CompteursIndependants(c: Compte, rs: seq<Requete>, v: Voie)
    ensures CompteurDe(RunCompte(c, rs), v) == Run(CompteurDe(c, v), Trace(c, rs, v))
  {
    if rs != [] {
      var a, r := rs[..|rs| - 1], rs[|rs| - 1];
      CompteursIndependants(c, a, v);
      UneRequete(RunCompte(c, a), r, v);
      var e := Sur(RunCompte(c, a), r, v);
      if e.Some? { RunAjout(CompteurDe(c, v), Trace(c, a, v), e.value); }
    }
  }

  lemma FauxAjout(c: Compteur, es: seq<Evenement>, e: Evenement, debut: int)
    ensures FauxDansLaJournee(c, es + [e], debut)
         == FauxDansLaJournee(c, es, debut) + if CodeFauxCompare(Run(c, es), e) && DansLaJournee(e.t, debut) then 1 else 0
  {
    assert (es + [e])[..|es|] == es;
  }

  /** The wrong codes compared with a secret are those its counter sees, and those of the routes that use no counter. */
  lemma {:induction false} TotalDuJour(c: Compte, rs: seq<Requete>, v: Voie, debut: int)
    ensures CodesFaux(c, rs, SecretsDe(v), debut)
         == FauxDansLaJournee(CompteurDe(c, v), Trace(c, rs, v), debut) + FauxSansCompteur(c, rs, SecretsDe(v), debut)
    ensures v == Identificateur ==> FauxSansCompteur(c, rs, SecretsDe(v), debut) == 0
  {
    if rs != [] {
      var a, r := rs[..|rs| - 1], rs[|rs| - 1];
      TotalDuJour(c, a, v, debut);
      CompteursIndependants(c, a, v);
      UneComparaison(RunCompte(c, a), r, v);
      var e := Sur(RunCompte(c, a), r, v);
      if e.Some? { FauxAjout(CompteurDe(c, v), Trace(c, a, v), e.value, debut); }
    }
  }

  /**
   With tries one after the other and no reset, the wrong codes compared with an account's secrets in 24 hours are
   at most 78 — 72 once six failures are behind — plus those of the routes that use no counter. For the actor the
   bound is on login and pin/verify together. The identificateur's PIN has no such route, and no login resets it.
   */
  lemma BornesDuCompte(c: Compte, rs: seq<Requete>, v: Voie, debut: int)
    requires EnOrdre(rs) && SansRemise(CompteurDe(c, v), Trace(c, rs, v))
    ensures CodesFaux(c, rs, SecretsDe(v), debut) <= 78 + FauxSansCompteur(c, rs, SecretsDe(v), debut)
    ensures CompteurDe(c, v).echecs >= 6 && !HorsEchelle(CompteurDe(c, v), Trace(c, rs, v)) ==>
      CodesFaux(c, rs, SecretsDe(v), debut) <= 72 + FauxSansCompteur(c, rs, SecretsDe(v), debut)
    ensures v == Identificateur ==> FauxSansCompteur(c, rs, SecretsDe(v), debut) == 0
  {
    TraceChronologique(c, rs, v, if rs == [] then 0 else T(rs[|rs| - 1]));
    TotalDuJour(c, rs, v, debut);
    BorneParJour(CompteurDe(c, v), Trace(c, rs, v), debut);
  }

  lemma {:induction false} AucunSansCompteur(c: Compte, rs: seq<Requete>, secrets: set<Secret>, debut: int)
    requires forall k :: 0 <= k < |rs| ==> !rs[k].SansCompteur?
    ensures FauxSansCompteur(c, rs, secrets, debut) == 0
  {
    if rs != [] { AucunSansCompteur(c, rs[..|rs| - 1], secrets, debut); }
  }

  /** So the figures hold of every run that uses none of those routes. */
  lemma BorneSiTousComptes(c: Compte, rs: seq<Requete>, v: Voie, debut: int)
    requires EnOrdre(rs) && SansRemise(CompteurDe(c, v), Trace(c, rs, v))
    requires forall k :: 0 <= k < |rs| ==> !rs[k].SansCompteur?
    ensures CodesFaux(c, rs, SecretsDe(v), debut) <= 78
    ensures CompteurDe(c, v).echecs >= 6 && !HorsEchelle(CompteurDe(c, v), Trace(c, rs, v)) ==> CodesFaux(c, rs, SecretsDe(v), debut) <= 72
  {
    AucunSansCompteur(c, rs, SecretsDe(v), debut);
    BornesDuCompte(c, rs, v, debut);
  }

  // ── The other routes put no bound ───────────────────────────────────────

  /** One more request, seen from each of the accounts kept of a run. */
  lemma CompteAjout(c: Compte, a: seq<Requete>, r: Requete, secrets: set<Secret>, debut: int)
    ensures RunCompte(c, a + [r]) == ApresRequete(RunCompte(c, a), r)
    ensures var e := Sur(RunCompte(c, a), r, Acteur);
      Trace(c, a + [r], Acteur) == if e.Some? then Trace(c, a, Acteur) + [e.value] else Trace(c, a, Acteur)
    ensures var n := if FauxSur(RunCompte(c, a), r, secrets) && DansLaJournee(r.t, debut) then 1 else 0;
      && CodesFaux(c, a + [r], secrets, debut) == CodesFaux(c, a, secrets, debut) + n
      && FauxSansCompteur(c, a + [r], secrets, debut) == FauxSansCompteur(c, a, secrets, debut) + if r.SansCompteur? then n else 0
  {
    assert (a + [r])[..|a|] == a;
  }

  lemma UneSansCompteur(c: Compte, t: int, route: RouteLibre)
    requires SecretDe(c, route).Some?
    ensures var r := SansCompteur(t, false, route);
      ApresRequete(c, r) == c && Sur(c, r, Acteur).None? && CompareFaux(c, r) == SecretDe(c, route)
  {
  }

  function Repeter(r: Requete, n: nat): seq<Requete> { if n == 0 then [] else Repeter(r, n - 1) + [r] }

  lemma {:induction false} RepeterForme(r: Requete, n: nat)
    ensures |Repeter(r, n)| == n && forall k :: 0 <= k < n ==> Repeter(r, n)[k] == r
  {
    if n > 0 { RepeterForme(r, n - 1); }
  }

  /**
   On any account, whatever its counters say and even during a wait: on a route that uses no counter, a wrong code
   is compared as many times as it is sent, in one instant, and the account stays as it was.
   */
  lemma {:induction false} SansCompteurSansBorne(c: Compte, t: int, route: RouteLibre, n: nat, secrets: set<Secret>, debut: int)
    requires SecretDe(c, route).Some? && SecretDe(c, route).value in secrets && DansLaJournee(t, debut)
    ensures var rs := Repeter(SansCompteur(t, false, route), n);
      && RunCompte(c, rs) == c && Trace(c, rs, Acteur) == []
      && CodesFaux(c, rs, secrets, debut) == FauxSansCompteur(c, rs, secrets, debut) == n
  {
    if n > 0 {
      var r := SansCompteur(t, false, route);
      UneSansCompteur(c, t, route);
      SansCompteurSansBorne(c, t, route, n - 1, secrets, debut);
      CompteAjout(c, Repeter(r, n - 1), r, secrets, debut);
    }
  }

  lemma {:induction false} FauxConcat(c: Compte, a: seq<Requete>, b: seq<Requete>, secrets: set<Secret>, debut: int)
    ensures RunCompte(c, a + b) == RunCompte(RunCompte(c, a), b)
    ensures Trace(c, a + b, Acteur) == Trace(c, a, Acteur) + Trace(RunCompte(c, a), b, Acteur)
    ensures CodesFaux(c, a + b, secrets, debut) == CodesFaux(c, a, secrets, debut) + CodesFaux(RunCompte(c, a), b, secrets, debut)
    ensures FauxSansCompteur(c, a + b, secrets, debut)
         == FauxSansCompteur(c, a, secrets, debut) + FauxSansCompteur(RunCompte(c, a), b, secrets, debut)
  {
    if b == [] {
      assert a + b == a;
    } else {
      var b', r := b[..|b| - 1], b[|b| - 1];
      FauxConcat(c, a, b', secrets, debut);
      assert a + b == (a + b') + [r] && b == b' + [r];
      CompteAjout(c, a + b', r, secrets, debut);
      CompteAjout(RunCompte(c, a), b', r, secrets, debut);
    }
  }

  const COMPTE_NEUF := Compte(Compteur(0, None), Compteur(0, None), false, false, true)

  function RafaleDeLogins(n: nat): seq<Requete> {
    if n == 0 then [] else RafaleDeLogins(n - 1) + [Login(Cumul(n), false, false)]
  }

  lemma {:induction false} RafaleForme(n: nat)
    ensures |RafaleDeLogins(n)| == n && forall k :: 0 <= k < n ==> RafaleDeLogins(n)[k] == Login(Cumul(k + 1), false, false)
  {
    if n > 0 { RafaleForme(n - 1); }
  }

  lemma {:induction false} RafaleSurLeCompteur(n: nat)
    ensures Trace(COMPTE_NEUF, RafaleDeLogins(n), Acteur) == Rafale(n) && RunCompte(COMPTE_NEUF, RafaleDeLogins(n)).motDePasse
  {
    if n > 0 {
      var a, r := RafaleDeLogins(n - 1), Login(Cumul(n), false, false);
      RafaleSurLeCompteur(n - 1);
      CompteAjout(COMPTE_NEUF, a, r, {}, 0);
      LoginGarde(RunCompte(COMPTE_NEUF, a), Cumul(n));
    }
  }

  lemma LoginGarde(c: Compte, t: int)
    requires c.motDePasse
    ensures Sur(c, Login(t, false, false), Acteur) == Some(Essai(t, false, false)) && ApresRequete(c, Login(t, false, false)).motDePasse
  {
  }

  lemma RafaleSansRemise(n: nat)
    ensures SansRemise(Compteur(0, None), Rafale(n))
  {
    RafaleChronologique(n);
    forall k | 0 <= k < n ensures !Remet(Run(Compteur(0, None), Rafale(n)[..k]), Rafale(n)[k]) {}
  }

  /** n times on one of those routes, then k logins as fast as the ladder allows. */
  function DetoursPuisLogins(n: nat, k: nat): seq<Requete> { Repeter(SansCompteur(0, false, ChangerMotDePasse), n) + RafaleDeLogins(k) }

  lemma DetoursEnOrdre(n: nat, k: nat)
    ensures EnOrdre(DetoursPuisLogins(n, k))
  {
    var a, b := Repeter(SansCompteur(0, false, ChangerMotDePasse), n), RafaleDeLogins(k);
    RepeterForme(SansCompteur(0, false, ChangerMotDePasse), n);
    RafaleForme(k);
    RafaleChronologique(k);
    forall j | 0 <= j < k ensures T(b[j]) == Rafale(k)[j].t {}
  }

  /**
   The bound is exact: for every n, and every k up to 78, a run without reset compares n wrong codes on those
   routes and k + n in all.
   */
  lemma BorneExacte(n: nat, k: nat)
    requires k <= 78
    ensures var rs := DetoursPuisLogins(n, k);
      && EnOrdre(rs) && SansRemise(Compteur(0, None), Trace(COMPTE_NEUF, rs, Acteur))
      && FauxSansCompteur(COMPTE_NEUF, rs, SecretsDe(Acteur), 0) == n
      && CodesFaux(COMPTE_NEUF, rs, SecretsDe(Acteur), 0) == n + k
  {
    var a, b := Repeter(SansCompteur(0, false, ChangerMotDePasse), n), RafaleDeLogins(k);
    DetoursEnOrdre(n, k);
    SansCompteurSansBorne(COMPTE_NEUF, 0, ChangerMotDePasse, n, SecretsDe(Acteur), 0);
    RafaleSurLeCompteur(k);
    RafaleToutComparee(k);
    RafaleSansRemise(k);
    FauxConcat(COMPTE_NEUF, a, b, SecretsDe(Acteur), 0);
    assert Trace(COMPTE_NEUF, a + b, Acteur) == Rafale(k);
    RafaleForme(k);
    AucunSansCompteur(COMPTE_NEUF, b, SecretsDe(Acteur), 0);
    TotalDuJour(COMPTE_NEUF, b, Acteur, 0);
  }
}
