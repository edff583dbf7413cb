/** The day session: what opening, correcting and closing do to a day, and a closing's numbers over runs. */
module JourneeLois {
  import opened Commun
  import opened Tables
  import opened Sommes
  import opened Caisse
  import opened ConstatLois
  import CaisseLois

  /** A float or a count is a number, and not negative. */
  predicate MontantValable(x: Option<real>) { x.Some? && x.value >= 0.0 }

  /** Nothing moved but one day's row and, maybe, the float journal. */
  ghost predicate SeulJour(s: Etat, s': Etat, cle: CleSession) {
    && s' == s.(sessions := s'.sessions, journal := s'.journal)
    && cle in s'.sessions && s'.sessions == s.sessions[cle := s'.sessions[cle]]
  }

  // ── Opening and correcting ──────────────────────────────────────────────

  /** The day was declared with that float already. */
  predicate Declare(s: Etat, cle: CleSession) { cle in s.sessions && s.sessions[cle].declareLe.Some? }

  /**
   Opening succeeds exactly for a valid float. The day is then open, whether it was closed or not; a float declared
   before stays, with no new entry in its journal; the last closing's numbers stay too.
   */
  lemma OuvrirExact(s: Etat, m: Marchand, fond: Option<real>, t: int)
    ensures var (s', rep) := Ouvrir(s, m, fond, t);
      var cle := (m, Jour(t));
      && (rep.Ok? <==> MontantValable(fond)) && (rep.Refusee? ==> s' == s)
      && (rep.Ok? ==>
            && SeulJour(s, s', cle)
            && var x := s'.sessions[cle];
               && x.ouvert && !JourFerme(s', cle) && x.declareLe.Some?
               && (if Declare(s, cle) then x.fond == s.sessions[cle].fond && x.declareLe == s.sessions[cle].declareLe && s'.journal == s.journal
                   else x.fond == fond.value && x.declareLe == Some(t) && |s'.journal| == |s.journal| + 1)
               && (if cle in s.sessions
                   then x.fondFinal == s.sessions[cle].fondFinal && x.theorique == s.sessions[cle].theorique && x.ecart == s.sessions[cle].ecart
                        && (!s.sessions[cle].ouvert ==> x.fermeLe.None?)
                   else x.fondFinal == 0.0 && x.theorique.None? && x.ecart.None? && x.fermeLe.None?))
  {
  }

  /** Correcting the float succeeds exactly for a valid one, writes it, and opens or closes nothing that was there. */
  lemma CorrigerExact(s: Etat, m: Marchand, fond: Option<real>, t: int)
    ensures var (s', rep) := CorrigerFond(s, m, fond, t);
      var cle := (m, Jour(t));
      && (rep.Ok? <==> MontantValable(fond)) && (rep.Refusee? ==> s' == s)
      && (rep.Ok? ==>
            && SeulJour(s, s', cle) && |s'.journal| == |s.journal| + 1
            && var x := s'.sessions[cle];
               && x.fond == fond.value && x.declareLe == (if Declare(s, cle) then s.sessions[cle].declareLe else Some(t))
               && (if cle in s.sessions then x == s.sessions[cle].(fond := x.fond, declareLe := x.declareLe)
                   else x.ouvert && x.fermeLe.None? && x.fondFinal == 0.0 && x.theorique.None? && x.ecart.None?))
  {
  }

  // ── Closing ─────────────────────────────────────────────────────────────

  function ValeurDuJour(cle: CleSession): Ecriture -> real {
    (e: Ecriture) => if e.marchand == cle.0 && Jour(e.creeLe) == cle.1 then CaisseLois.Valeur(e) else 0.0
  }

  /** What a drawer should hold: its float and what each line of the day is worth. */
  lemma {:induction false} CompteEstSomme(es: seq<Ecriture>, fond: real, cle: CleSession)
    ensures CaisseTheorique(es, cle.0, fond, cle.1) == fond + Somme(ValeurDuJour(cle), es)
  {
    if es != [] {
      var a, e := es[..|es| - 1], es[|es| - 1];
      CompteEstSomme(a, fond, cle);
      assert es == a + [e];
      TheoriqueAjout(a, e, cle.0, fond, cle.1);
      CaisseLois.EffetEstValeur(e, cle);
    }
  }

  /** What a closing writes: the count, what the drawer should hold, their difference, and its instant. */
  ghost predicate ConstatEcrit(s: Etat, x: Session, cle: CleSession, comptage: real, t: int)
    requires cle in s.sessions
  {
    && !x.ouvert && x.fermeLe == Some(t) && x.fondFinal == comptage
    && x.theorique == Some(s.sessions[cle].fond + Somme(ValeurDuJour(cle), s.ecritures))
    && x.ecart == Some(comptage - s.sessions[cle].fond - Somme(ValeurDuJour(cle), s.ecritures))
  }

  /** The day is there, and no closing stands. */
  predicate AFermer(s: Etat, cle: CleSession) {
    cle in s.sessions && (s.sessions[cle].ouvert || s.sessions[cle].fermeLe.None?)
  }

  /**
   A closing succeeds if and only if the count is valid, the day exists and it is not closed. It then writes its
   numbers on that day and moves nothing else; refused, it changes nothing: a second closing never overwrites the first.
   */
  lemma FermerExact(s: Etat, m: Marchand, comptage: Option<real>, t: int)
    ensures var (s', rep) := Fermer(s, m, comptage, t);
      var cle := (m, Jour(t));
      && (rep.Ok? <==> MontantValable(comptage) && AFermer(s, cle))
      && (rep.Refusee? ==> s' == s)
      && (rep == Refusee(DejaFermee) <==> MontantValable(comptage) && cle in s.sessions && !AFermer(s, cle))
      && (rep.Ok? ==>
            && SeulJour(s, s', cle) && s'.journal == s.journal
            && ConstatEcrit(s, s'.sessions[cle], cle, comptage.value, t) && s'.sessions[cle].ecart == Some(rep.valeur)
            && s'.sessions[cle].fond == s.sessions[cle].fond && s'.sessions[cle].declareLe == s.sessions[cle].declareLe)
  {
    if (m, Jour(t)) in s.sessions { CompteEstSomme(s.ecritures, s.sessions[(m, Jour(t))].fond, (m, Jour(t))); }
  }

  // ── A statement stays until the day is opened again ─────────────────────

  predicate Clos(s: Etat, cle: CleSession) { cle in s.sessions && !s.sessions[cle].ouvert && s.sessions[cle].fermeLe.Some? }

  /** The numbers of the closing, its instant, and the day still closed. */
  predicate MemeConstat(x: Session, y: Session) {
    && x.ouvert == y.ouvert && x.fermeLe == y.fermeLe && x.fondFinal == y.fondFinal && x.theorique == y.theorique && x.ecart == y.ecart
  }

  /** The request opens that day again. */
  predicate Rouvre(r: Requete, cle: CleSession) {
    r.ROuvrir? && cle == (r.m, Jour(r.t)) && MontantValable(r.fond)
  }

  lemma VenteHorsJours(s: Etat, m: Marchand, d: DemandeVente, t: int, cle: CleSession)
    requires cle in s.sessions
    ensures var s' := EnregistrerVente(s, m, d, t).0; cle in s'.sessions && s'.sessions[cle] == s.sessions[cle]
  {
    if VenteAcceptee(s, m, d, t) {
      var e := Ecriture(m, Vente, d.montant.n, Validee, InstantDe(d.date, t), d.cle);
      LignesGardentEcritures(AssurerSession(s, (m, Jour(t))).(ecritures := s.ecritures + [e]), m, |s.ecritures|, LignesVendues(d));
    }
  }

  lemma AutresHorsJours(s: Etat, r: Requete, cle: CleSession)
    requires cle in s.sessions && !r.RVente? && !r.ROuvrir? && !r.RFond? && !r.RFermer? && !SurProduits(r)
    ensures cle in Etape(s, r).sessions && Etape(s, r).sessions[cle] == s.sessions[cle]
  {
  }

  /** A request leaves a closed day's statement as it is if and only if it does not open that day again. */
  lemma EtapeClos(s: Etat, r: Requete, cle: CleSession)
    requires Clos(s, cle)
    ensures cle in Etape(s, r).sessions
    ensures MemeConstat(s.sessions[cle], Etape(s, r).sessions[cle]) <==> !Rouvre(r, cle)
  {
    match r
    case RVente(m, d, t) => VenteHorsJours(s, m, d, t, cle);
    case ROuvrir(m, f, t) => OuvrirExact(s, m, f, t);
    case RFond(m, f, t) => CorrigerExact(s, m, f, t);
    case RFermer(m, c, t) => FermerExact(s, m, c, t);
    case _ => if SurProduits(r) { ProduitsSeuls(s, r); } else { AutresHorsJours(s, r, cle); }
  }

  /** Over every run that does not open the day again: what its closing wrote stays, whatever is booked, corrected or closed after it. */
  lemma {:induction false} ConstatGrave(s: Etat, rs: seq<Requete>, cle: CleSession)
    requires Clos(s, cle) && forall k :: 0 <= k < |rs| ==> !Rouvre(rs[k], cle)
    ensures Clos(Executer(s, rs), cle) && MemeConstat(s.sessions[cle], Executer(s, rs).sessions[cle])
  {
    if rs != [] {
      ConstatGrave(s, rs[..|rs| - 1], cle);
      EtapeClos(Executer(s, rs[..|rs| - 1]), rs[|rs| - 1], cle);
    }
  }

  lemma EtapeOuvertOuClos(s: Etat, r: Requete, cle: CleSession)
    requires Saine(s) && !Clos(s, cle) && Clos(Etape(s, r), cle)
    ensures r.RFermer? && cle == (r.m, Jour(r.t)) && MontantValable(r.comptage) && AFermer(s, cle)
    ensures ConstatEcrit(s, Etape(s, r).sessions[cle], cle, r.comptage.value, r.t)
  {
    match r
    case RVente(m, d, t) => VenteNeuve(s, m, d, t, cle);
    case ROuvrir(m, f, t) => OuvrirExact(s, m, f, t);
    case RFond(m, f, t) => CorrigerExact(s, m, f, t);
    case RFermer(m, c, t) => FermerExact(s, m, c, t);
    case _ => if SurProduits(r) { ProduitsSeuls(s, r); } else { AutresNeufs(s, r, cle); }
  }

  lemma VenteNeuve(s: Etat, m: Marchand, d: DemandeVente, t: int, cle: CleSession)
    requires Clos(EnregistrerVente(s, m, d, t).0, cle)
    ensures Clos(s, cle)
  {
    if VenteAcceptee(s, m, d, t) {
      var e := Ecriture(m, Vente, d.montant.n, Validee, InstantDe(d.date, t), d.cle);
      LignesGardentEcritures(AssurerSession(s, (m, Jour(t))).(ecritures := s.ecritures + [e]), m, |s.ecritures|, LignesVendues(d));
    }
  }

  lemma AutresNeufs(s: Etat, r: Requete, cle: CleSession)
    requires !r.RVente? && !r.ROuvrir? && !r.RFond? && !r.RFermer? && !SurProduits(r) && Clos(Etape(s, r), cle)
    ensures Clos(s, cle)
  {
  }

  /** The closed day of tables x has the numbers that closing r wrote from tables a. */
  ghost predicate FermePar(a: Etat, r: Requete, x: Etat, cle: CleSession) {
    && r.RFermer? && cle == (r.m, Jour(r.t)) && MontantValable(r.comptage) && AFermer(a, cle)
    && Clos(x, cle) && ConstatEcrit(a, x.sessions[cle], cle, r.comptage.value, r.t)
  }

  lemma FermeParSuite(a: Etat, r0: Requete, x: Etat, r: Requete, cle: CleSession)
    requires FermePar(a, r0, x, cle) && Clos(Etape(x, r), cle)
    ensures !Rouvre(r, cle) && FermePar(a, r0, Etape(x, r), cle)
  {
    EtapeClos(x, r, cle);
    if Rouvre(r, cle) { OuvrirExact(x, r.m, r.fond, r.t); }
  }

  /**
   Every closed day's numbers are those of one closing of the run, after which none opened it again: its count, what
   the float and the lines of the day were worth at that moment, and the difference.
   */
  lemma {:induction false} ConstatVientDe(s: Etat, rs: seq<Requete>, cle: CleSession) returns (k: nat)
    requires Saine(s) && !Clos(s, cle) && Clos(Executer(s, rs), cle)
    ensures k < |rs| && FermePar(Executer(s, rs[..k]), rs[k], Executer(s, rs), cle)
    ensures forall l :: k < l < |rs| ==> !Rouvre(rs[l], cle)
  {
    assert rs != [];
    var n := |rs| - 1;
    var a := rs[..n];
    var x := Executer(s, a);
    if Clos(x, cle) {
      k := ConstatVientDe(s, a, cle);
      assert a[..k] == rs[..k];
      FermeParSuite(Executer(s, rs[..k]), rs[k], x, rs[n], cle);
      assert forall l :: k < l < n ==> a[l] == rs[l];
    } else {
      k := n;
      RunSaine(s, a);
      EtapeOuvertOuClos(x, rs[n], cle);
    }
  }
}
