/** What one try does to a counter, and the counter told by the tries alone: how many wrong codes since the last right one. */
module VerrouLois {
  import opened Commun
  import opened Verrou

  // ── One try ─────────────────────────────────────────────────────────────

  /** A wait set by the ladder is running: it ends within a day. A lock that ends later is an old endless one, and does not count. */
  predicate EnAttente(c: Compteur, t: int) { c.jusqua.Some? && t < c.jusqua.value <= t + 86_400_000 }

  predicate SansFin(c: Compteur, t: int) { c.jusqua.Some? && c.jusqua.value > t + 86_400_000 }

  /** How long failure number n makes one wait: every third one does. */
  function Duree(n: nat): int {
    if n == 0 || n % 3 != 0 then 0 else if n == 3 then 300_000 else if n == 6 then 900_000 else 3_600_000
  }

  /** How many failures count before a try: an old endless lock is lifted with its count. */
  function Comptes(c: Compteur, t: int): nat { if SansFin(c, t) then 0 else c.echecs }

  /**
   During a wait nothing is compared and nothing moves. Outside one, a right code is accepted, and where it resets it
   leaves a fresh counter; a wrong one adds one failure, and every third failure starts its wait.
   */
  lemma EssaiExact(c: Compteur, t: int, juste: bool, remet: bool)
    ensures var (c', v) := Essayer(c, t, juste, remet);
      && (EnAttente(c, t) ==> c' == c && v == Attendre(c.jusqua.value - t))
      && (!EnAttente(c, t) && juste ==>
            && v == Juste
            && (remet ==> c' == Compteur(0, None))
            && (!remet ==> c' == if SansFin(c, t) then Compteur(0, None) else c))
      && (!EnAttente(c, t) && !juste ==>
            var n := Comptes(c, t) + 1;
            && c'.echecs == n
            && (if n % 3 == 0 then v == FauxEtAttente(Duree(n)) && c'.jusqua == Some(t + Duree(n))
                else v == Faux(3 - n % 3) && c'.jusqua == if SansFin(c, t) then None else c.jusqua))
  {
  }

  // ── The counter, told by the tries alone ────────────────────────────────

  /** How many wrong codes were compared since the last reset, and when the last of them was. */
  datatype Suite = Suite(n: nat, dernier: int)

  predicate Attend(u: Suite, t: int) { u.n > 0 && t < u.dernier + Duree(u.n) }

  /** A try during the wait counts for nothing; a right code that resets, or an unlock, starts again from none. */
  function Suivre(u: Suite, e: Evenement): Suite {
    match e
    case Deblocage(_) => Suite(0, 0)
    case Essai(t, juste, remet) =>
      if Attend(u, t) then u else if !juste then Suite(u.n + 1, t) else if remet then Suite(0, 0) else u
  }

  function Histoire(es: seq<Evenement>): Suite {
    if es == [] then Suite(0, 0) else Suivre(Histoire(es[..|es| - 1]), es[|es| - 1])
  }

  ghost predicate Raconte(c: Compteur, u: Suite, t: int) {
    && c.echecs == u.n && (u.n > 0 ==> u.dernier <= t)
    && (if u.n > 0 && u.n % 3 == 0 then c.jusqua == Some(u.dernier + Duree(u.n))
        else c.jusqua.Some? ==> u.n > 0 && c.jusqua.value <= u.dernier)
  }

  lemma DureeBornee(n: nat)
    ensures 0 <= Duree(n) <= 3_600_000
  {
  }

  lemma AttendEstEnAttente(c: Compteur, u: Suite, t: int, t': int)
    requires Raconte(c, u, t) && t <= t'
    ensures Attend(u, t') <==> EnAttente(c, t')
    ensures !SansFin(c, t')
  {
    DureeBornee(u.n);
  }

  lemma RaconteSuite(c: Compteur, u: Suite, t: int, e: Evenement)
    requires Raconte(c, u, t) && t <= e.t
    ensures Raconte(Apres(c, e), Suivre(u, e), e.t)
  {
    if e.Essai? {
      AttendEstEnAttente(c, u, t, e.t);
      EssaiExact(c, e.t, e.juste, e.remet);
      DureeBornee(u.n);
      if !Attend(u, e.t) && !e.juste { FauxRaconte(c, u, t, e); }
    }
  }

  lemma FauxRaconte(c: Compteur, u: Suite, t: int, e: Evenement)
    requires Raconte(c, u, t) && t <= e.t && e.Essai? && !e.juste && !Attend(u, e.t) && !EnAttente(c, e.t) && !SansFin(c, e.t)
    ensures Raconte(Apres(c, e), Suite(u.n + 1, e.t), e.t)
  {
    EssaiExact(c, e.t, false, e.remet);
    DureeBornee(u.n);
  }

  lemma {:induction false} HistoireRaconte(es: seq<Evenement>, fin: int)
    requires Chronologique(es) && forall k :: 0 <= k < |es| ==> es[k].t <= fin
    ensures Raconte(Run(Compteur(0, None), es), Histoire(es), fin)
  {
    if es != [] {
      var a, e := es[..|es| - 1], es[|es| - 1];
      HistoireRaconte(a, e.t);
      RaconteSuite(Run(Compteur(0, None), a), Histoire(a), e.t, e);
    }
  }

  /**
   Over every run in time order, from a fresh counter: the failures counted are the wrong codes compared since the last
   reset, and what the next try is answered follows from them alone.
   */
  lemma RunHistoire(es: seq<Evenement>, t: int, juste: bool, remet: bool)
    requires Chronologique(es) && forall k :: 0 <= k < |es| ==> es[k].t <= t
    ensures var c, u := Run(Compteur(0, None), es), Histoire(es);
      && c.echecs == u.n
      && Essayer(c, t, juste, remet).1 ==
         if Attend(u, t) then Attendre(u.dernier + Duree(u.n) - t)
         else if juste then Juste
         else if (u.n + 1) % 3 == 0 then FauxEtAttente(Duree(u.n + 1))
         else Faux(3 - (u.n + 1) % 3)
  {
    HistoireRaconte(es, t);
    var c, u := Run(Compteur(0, None), es), Histoire(es);
    AttendEstEnAttente(c, u, t, t);
    EssaiExact(c, t, juste, remet);
    DureeBornee(u.n);
  }

  // ── The routes of an account ────────────────────────────────────────────

  const NEUF := Compteur(0, None)

  /** Outside a wait, a right code: what each route does with it. Only an active account's login resets. */
  lemma CodeJuste(c: Compte, t: int)
    ensures !EnAttente(c.acteur, t) && c.motDePasse ==>
      && ApresRequete(c, Login(t, true, true)) == c.(acteur := NEUF)
      && ApresRequete(c, Login(t, true, false)) == c.(acteur := if SansFin(c.acteur, t) then NEUF else c.acteur)
    ensures !EnAttente(c.acteur, t) && c.pinPose ==> ApresRequete(c, VerifierPin(t, true)) == c.(acteur := NEUF)
    ensures !EnAttente(c.identificateur, t) ==>
      && ApresRequete(c, VerifierPinIdentificateur(t, true)) == c.(identificateur := NEUF)
      && ApresRequete(c, ChangerPinIdentificateur(t, true)) == c.(identificateur := NEUF)
    ensures ApresRequete(c, DebloquerActeur(t)) == c.(acteur := NEUF)
    ensures ApresRequete(c, ReinitialiserPinIdentificateur(t)) == c.(identificateur := NEUF)
  {
    EssaiExact(c.acteur, t, true, true);
    EssaiExact(c.acteur, t, true, false);
    EssaiExact(c.identificateur, t, true, true);
  }

  /** Over every run of an account's requests in time order: each counter is the story of the tries its routes make. */
  lemma CompteRaconte(c: Compte, rs: seq<Requete>, v: Voie, fin: int)
    requires EnOrdre(rs) && (forall k :: 0 <= k < |rs| ==> T(rs[k]) <= fin) && CompteurDe(c, v) == NEUF
    ensures Raconte(CompteurDe(RunCompte(c, rs), v), Histoire(Trace(c, rs, v)), fin)
  {
    CompteursIndependants(c, rs, v);
    TraceChronologique(c, rs, v, fin);
    HistoireRaconte(Trace(c, rs, v), fin);
  }

  /** Outside a wait, a wrong code adds one failure to the counter of its secret and to no other. */
  lemma CodeFaux(c: Compte, t: int, actif: bool)
    ensures !EnAttente(c.acteur, t) && c.motDePasse ==>
      var c' := ApresRequete(c, Login(t, false, actif));
      c' == c.(acteur := c'.acteur) && c'.acteur.echecs == Comptes(c.acteur, t) + 1 && CompareFaux(c, Login(t, false, actif)) == Some(MotDePasse)
    ensures !EnAttente(c.acteur, t) && c.pinPose ==>
      var c' := ApresRequete(c, VerifierPin(t, false));
      c' == c.(acteur := c'.acteur) && c'.acteur.echecs == Comptes(c.acteur, t) + 1 && CompareFaux(c, VerifierPin(t, false)) == Some(Pin)
    ensures !EnAttente(c.identificateur, t) ==>
      forall r :: r == VerifierPinIdentificateur(t, false) || r == ChangerPinIdentificateur(t, false) ==>
        var c' := ApresRequete(c, r);
        c' == c.(identificateur := c'.identificateur) && c'.identificateur.echecs == Comptes(c.identificateur, t) + 1
        && CompareFaux(c, r) == Some(PinIdentificateur)
  {
    EssaiExact(c.acteur, t, false, actif);
    EssaiExact(c.acteur, t, false, true);
    EssaiExact(c.identificateur, t, false, true);
  }

  /** During the wait of a counter, its routes compare nothing and leave the account as it is. */
  lemma PendantLAttente(c: Compte, t: int, juste: bool, actif: bool)
    ensures EnAttente(c.acteur, t) ==>
      forall r :: r == Login(t, juste, actif) || r == VerifierPin(t, juste) ==> ApresRequete(c, r) == c && CompareFaux(c, r).None?
    ensures EnAttente(c.identificateur, t) ==>
      forall r :: r == VerifierPinIdentificateur(t, juste) || r == ChangerPinIdentificateur(t, juste) ==>
        ApresRequete(c, r) == c && CompareFaux(c, r).None?
  {
    EssaiExact(c.acteur, t, juste, actif);
    EssaiExact(c.acteur, t, juste, true);
    EssaiExact(c.identificateur, t, juste, true);
  }

  /**
   The four routes that use no counter: which secret each compares and when, and what it does once accepted. A wrong
   code changes nothing at all.
   */
  lemma RoutesSansCompteur(c: Compte, t: int)
    ensures CompareFaux(c, SansCompteur(t, false, PoserPin)) == (if c.pinPose && c.pinExige then Some(Pin) else None)
    ensures CompareFaux(c, SansCompteur(t, false, DesactiverPin)) == (if c.pinPose then Some(Pin) else None)
    ensures CompareFaux(c, SansCompteur(t, false, ChangerMotDePasse)) == (if c.motDePasse then Some(MotDePasse) else None)
    ensures CompareFaux(c, SansCompteur(t, false, SupprimerCompte)) == (if c.motDePasse then Some(MotDePasse) else None)
    ensures forall route :: CompareFaux(c, SansCompteur(t, false, route)).Some? ==> ApresRequete(c, SansCompteur(t, false, route)) == c
    ensures ApresRequete(c, SansCompteur(t, true, PoserPin)) == c.(pinPose := true, pinExige := true)
    ensures !(c.pinPose && c.pinExige) ==> ApresRequete(c, SansCompteur(t, false, PoserPin)) == c.(pinPose := true, pinExige := true)
    ensures c.pinPose ==> ApresRequete(c, SansCompteur(t, true, DesactiverPin)) == c.(pinPose := false, pinExige := false)
    ensures c.motDePasse ==> ApresRequete(c, SansCompteur(t, true, SupprimerCompte)) == c.(motDePasse := false)
    ensures ApresRequete(c, SansCompteur(t, true, ChangerMotDePasse)) == c
  {
  }
}
