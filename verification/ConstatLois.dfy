/**
 The evening statement: a closed day's caisse_theorique, fond_final and ecart
 stay true. Exactly which requests keep it, and which ones break it.
 */
module ConstatLois {
  import opened Commun
  import opened Tables
  import opened Sommes
  import opened Stock
  import opened Caisse

  /** The three numbers written at closing agree with the till's lines as they are now. */
  ghost predicate Constat(s: Etat, cle: CleSession) {
    JourFerme(s, cle) ==>
      var x := s.sessions[cle];
      x.theorique.Some? && x.theorique.value == CaisseTheorique(s.ecritures, cle.0, x.fond, cle.1)
      && x.ecart == Some(x.fondFinal - x.theorique.value)
  }

  ghost predicate LoiConstat(s: Etat) { forall cle: CleSession :: Constat(s, cle) }

  /** A day is closed exactly when its closing time is set, and every line moves a positive amount. */
  ghost predicate Saine(s: Etat) {
    && (forall cle :: cle in s.sessions ==> (s.sessions[cle].ouvert <==> s.sessions[cle].fermeLe.None?))
    && (forall i :: 0 <= i < |s.ecritures| ==> s.ecritures[i].montant > 0.0)
  }

  // ── What one till line weighs in one day's account ──────────────────────

  function Effet(e: Ecriture, m: Marchand, jour: int): real {
    Ventes(m, jour)(e) + Encaissements(m, jour)(e) - Depenses(m, jour)(e)
  }

  predicate NatureComptee(n: Nature) { n in {Vente, Depense, AcompteCredit, ReglementCredit} }

  lemma TheoriqueAjout(es: seq<Ecriture>, e: Ecriture, m: Marchand, fond: real, jour: int)
    ensures CaisseTheorique(es + [e], m, fond, jour) == CaisseTheorique(es, m, fond, jour) + Effet(e, m, jour)
  {
    SommeAjout(Ventes(m, jour), es, e);
    SommeAjout(Encaissements(m, jour), es, e);
    SommeAjout(Depenses(m, jour), es, e);
  }

  lemma TheoriqueMaj(es: seq<Ecriture>, i: nat, e: Ecriture, m: Marchand, fond: real, jour: int)
    requires i < |es|
    ensures CaisseTheorique(es[i := e], m, fond, jour)
         == CaisseTheorique(es, m, fond, jour) - Effet(es[i], m, jour) + Effet(e, m, jour)
  {
    SommeMaj(Ventes(m, jour), es, i, e);
    SommeMaj(Encaissements(m, jour), es, i, e);
    SommeMaj(Depenses(m, jour), es, i, e);
  }

  /** The same days are closed, with the same rows. */
  ghost predicate MemesFermees(s: Etat, s': Etat) {
    forall cle: CleSession :: (JourFerme(s, cle) <==> JourFerme(s', cle)) && (JourFerme(s, cle) ==> s'.sessions[cle] == s.sessions[cle])
  }

  lemma RienNeBouge(s: Etat, s': Etat)
    requires LoiConstat(s) && MemesFermees(s, s') && s'.ecritures == s.ecritures
    ensures LoiConstat(s')
  {
    forall cle: CleSession ensures Constat(s', cle) { assert Constat(s, cle); }
  }

  /** A line of the day that closed: its own day. */
  function JourDe(e: Ecriture): CleSession { (e.marchand, Jour(e.creeLe)) }

  /** Writing one valid line keeps the statements exactly when its own day is not a closed one it counts in. */
  lemma UneEcriture(s: Etat, s': Etat, e: Ecriture)
    requires LoiConstat(s) && MemesFermees(s, s') && s'.ecritures == s.ecritures + [e]
    requires e.montant > 0.0 && e.statut == Validee
    ensures LoiConstat(s') <==> !(NatureComptee(e.nature) && JourFerme(s, JourDe(e)))
  {
    forall cle: CleSession | JourFerme(s, cle)
      ensures Constat(s', cle) <==> Effet(e, cle.0, cle.1) == 0.0
    {
      assert Constat(s, cle);
      TheoriqueAjout(s.ecritures, e, cle.0, s.sessions[cle].fond, cle.1);
    }
    if NatureComptee(e.nature) && JourFerme(s, JourDe(e)) {
      assert !Constat(s', JourDe(e));
    }
  }

  /** The same for a status change: it must not carry a counted line of a closed day across 'annulee'. */
  lemma UnStatut(s: Etat, s': Etat, i: nat, statut: Statut)
    requires LoiConstat(s) && Saine(s) && MemesFermees(s, s') && i < |s.ecritures|
    requires s'.ecritures == s.ecritures[i := s.ecritures[i].(statut := statut)]
    ensures var e := s.ecritures[i];
      LoiConstat(s') <==> !(NatureComptee(e.nature) && JourFerme(s, JourDe(e)) && ((e.statut == Annulee) != (statut == Annulee)))
  {
    var e, e' := s.ecritures[i], s.ecritures[i].(statut := statut);
    forall cle: CleSession | JourFerme(s, cle)
      ensures Constat(s', cle) <==> Effet(e', cle.0, cle.1) == Effet(e, cle.0, cle.1)
    {
      assert Constat(s, cle);
      TheoriqueMaj(s.ecritures, i, e', cle.0, s.sessions[cle].fond, cle.1);
    }
    if NatureComptee(e.nature) && JourFerme(s, JourDe(e)) && ((e.statut == Annulee) != (statut == Annulee)) {
      assert !Constat(s', JourDe(e));
    }
  }

  // ── Which requests break a closed day's statement ───────────────────────

  /** The sale passes the key, amount and closed-day guards. */
  predicate VenteAcceptee(s: Etat, m: Marchand, d: DemandeVente, t: int) {
    && !CleDejaPrise(s, d.cle) && d.montant.Nombre? && d.montant.n > 0.0 && !JourFerme(s, (m, Jour(t)))
  }

  predicate DepenseAcceptee(s: Etat, m: Marchand, d: DemandeDepense, t: int) {
    && !CleDejaPrise(s, d.cle) && d.montant.Nombre? && d.montant.n > 0.0 && !JourFerme(s, (m, Jour(t)))
  }

  /**
   The requests the closed-day guard misses: an accepted sale or expense backdated
   into a closed day, an expense through POST transactions, a changed float on a
   closed day, an administrator moving a counted line of a closed day across 'annulee'.
   */
  predicate Perturbe(s: Etat, r: Requete) {
    match r
    case RVente(m, d, t) => VenteAcceptee(s, m, d, t) && JourFerme(s, (m, Jour(InstantDe(d.date, t))))
    case RDepense(m, d, t) => DepenseAcceptee(s, m, d, t) && JourFerme(s, (m, Jour(InstantDe(d.date, t))))
    case REcriture(m, nature, montant, t) => montant > 0.0 && nature == Depense && JourFerme(s, (m, Jour(t)))
    case RStatut(id, statut, motif) =>
      && (statut in {Gelee, Annulee, Litige} ==> motif)
      && id < |s.ecritures| && NatureComptee(s.ecritures[id].nature)
      && JourFerme(s, JourDe(s.ecritures[id]))
      && ((s.ecritures[id].statut == Annulee) != (statut == Annulee))
    case RFond(m, fond, t) =>
      fond.Some? && fond.value >= 0.0 && JourFerme(s, (m, Jour(t))) && s.sessions[(m, Jour(t))].fond != fond.value
    case _ => false
  }

  lemma {:induction false} LignesGardentEcritures(s: Etat, m: Marchand, tx: nat, ls: seq<Ligne>)
    ensures var s' := AppliquerLignes(s, m, tx, ls); s' == s.(produits := s'.produits, mouvements := s'.mouvements)
  {
    if ls != [] { LignesGardentEcritures(s, m, tx, ls[..|ls| - 1]); }
  }

  lemma VenteConstat(s: Etat, m: Marchand, d: DemandeVente, t: int)
    requires LoiConstat(s)
    ensures LoiConstat(EnregistrerVente(s, m, d, t).0) <==> !Perturbe(s, RVente(m, d, t))
  {
    var s' := EnregistrerVente(s, m, d, t).0;
    if VenteAcceptee(s, m, d, t) {
      var e := Ecriture(m, Vente, d.montant.n, Validee, InstantDe(d.date, t), d.cle);
      LignesGardentEcritures(AssurerSession(s, (m, Jour(t))).(ecritures := s.ecritures + [e]), m, |s.ecritures|, LignesVendues(d));
      UneEcriture(s, s', e);
    } else {
      RienNeBouge(s, s');
    }
  }

  lemma DepenseConstat(s: Etat, m: Marchand, d: DemandeDepense, t: int)
    requires LoiConstat(s)
    ensures LoiConstat(EnregistrerDepense(s, m, d, t).0) <==> !Perturbe(s, RDepense(m, d, t))
  {
    var s' := EnregistrerDepense(s, m, d, t).0;
    if DepenseAcceptee(s, m, d, t) {
      UneEcriture(s, s', Ecriture(m, Depense, d.montant.n, Validee, InstantDe(d.date, t), d.cle));
    } else {
      RienNeBouge(s, s');
    }
  }

  lemma FondConstat(s: Etat, m: Marchand, fond: Option<real>, t: int)
    requires LoiConstat(s)
    ensures LoiConstat(CorrigerFond(s, m, fond, t).0) <==> !Perturbe(s, RFond(m, fond, t))
  {
    var s', cle0 := CorrigerFond(s, m, fond, t).0, (m, Jour(t));
    assert Constat(s, cle0);
    forall cle: CleSession | cle != cle0 ensures Constat(s', cle) { assert Constat(s, cle); }
    if Perturbe(s, RFond(m, fond, t)) { assert !Constat(s', cle0); }
  }

  lemma SessionConstat(s: Etat, m: Marchand, x: Option<real>, t: int)
    requires LoiConstat(s) && Saine(s)
    ensures LoiConstat(Ouvrir(s, m, x, t).0) && LoiConstat(Fermer(s, m, x, t).0)
  {
    var s1, s2 := Ouvrir(s, m, x, t).0, Fermer(s, m, x, t).0;
    forall cle: CleSession ensures Constat(s1, cle) && Constat(s2, cle) { assert Constat(s, cle); }
  }

  /** A credit payment the guard lets through books in a day that is not closed. */
  lemma EncaissementConstat(s: Etat, m: Marchand, id: nat, x: real, cle: string, t: int)
    requires LoiConstat(s) && !JourFerme(s, (m, Jour(t)))
    ensures LoiConstat(EncaisserCredit(s, m, id, x, cle, t).0)
  {
    var s' := EncaisserCredit(s, m, id, x, cle, t).0;
    if s' == s {
    } else {
      UneEcriture(s, s', s'.ecritures[|s.ecritures|]);
    }
  }

  lemma CreditConstat(s: Etat, m: Marchand, d: DemandeCredit, t: int)
    requires LoiConstat(s)
    ensures LoiConstat(CreerCredit(s, m, d, t).0)
  {
    if d.total.Nombre? {
      var pose := PoserCredit(s, m, d.client, d.total.n);
      RienNeBouge(s, pose);
      if !JourFerme(s, (m, Jour(t))) {
        EncaissementConstat(pose, m, |s.credits|, Verse(d), CleCreation(d.cle, |s.credits|), t);
      }
    }
  }

  lemma ProduitsSeuls(s: Etat, r: Requete)
    requires SurProduits(r)
    ensures Etape(s, r).ecritures == s.ecritures && Etape(s, r).sessions == s.sessions
  {
  }

  /** Starting from true statements, a request keeps them all true exactly when it is not one the guard misses. */
  lemma EtapeConstat(s: Etat, r: Requete)
    requires LoiConstat(s) && Saine(s)
    ensures LoiConstat(Etape(s, r)) <==> !Perturbe(s, r)
  {
    if r.RCredit? || r.RPayer? || r.RAcompte? { CreditsConstat(s, r); }
    else if SurProduits(r) { ProduitsSeuls(s, r); RienNeBouge(s, Etape(s, r)); }
    else { CaisseConstat(s, r); }
  }

  lemma CaisseConstat(s: Etat, r: Requete)
    requires LoiConstat(s) && Saine(s) && !r.RCredit? && !r.RPayer? && !r.RAcompte? && !SurProduits(r)
    ensures LoiConstat(Etape(s, r)) <==> !Perturbe(s, r)
  {
    var s' := Etape(s, r);
    match r
    case RVente(m, d, t) => VenteConstat(s, m, d, t);
    case RDepense(m, d, t) => DepenseConstat(s, m, d, t);
    case REcriture(m, n, x, t) => if s' != s { UneEcriture(s, s', Ecriture(m, n, x, Validee, t, None)); }
    case RAnnuler(m, id, t) => if s' != s { UnStatut(s, s', id, Annulee); }
    case RStatut(id, st, motif) => if (st in {Gelee, Annulee, Litige} ==> motif) && id < |s.ecritures| { UnStatut(s, s', id, st); }
    case ROuvrir(m, f, t) => SessionConstat(s, m, f, t);
    case RFond(m, f, t) => FondConstat(s, m, f, t);
    case RFermer(m, c, t) => SessionConstat(s, m, c, t);
  }

  lemma CreditsConstat(s: Etat, r: Requete)
    requires LoiConstat(s) && (r.RCredit? || r.RPayer? || r.RAcompte?)
    ensures LoiConstat(Etape(s, r))
  {
    match r
    case RCredit(m, d, t) => CreditConstat(s, m, d, t);
    case RPayer(m, id, cle, t) =>
      if id < |s.credits| && !JourFerme(s, (m, Jour(t))) {
        EncaissementConstat(s, m, id, Arrondir(s.credits[id].total - s.credits[id].acompte), CleReglement(cle, id), t);
      }
    case RAcompte(m, id, x, cle, t) =>
      if x.Some? && cle.Some? && !JourFerme(s, (m, Jour(t))) {
        EncaissementConstat(s, m, id, x.value, CleAcompte(cle.value), t);
      }
  }

  lemma VenteSaine(s: Etat, m: Marchand, d: DemandeVente, t: int)
    requires Saine(s)
    ensures Saine(EnregistrerVente(s, m, d, t).0)
  {
    if VenteAcceptee(s, m, d, t) {
      var e := Ecriture(m, Vente, d.montant.n, Validee, InstantDe(d.date, t), d.cle);
      LignesGardentEcritures(AssurerSession(s, (m, Jour(t))).(ecritures := s.ecritures + [e]), m, |s.ecritures|, LignesVendues(d));
    }
  }

  lemma EncaissementSain(s: Etat, m: Marchand, id: nat, x: real, cle: string, t: int)
    requires Saine(s)
    ensures Saine(EncaisserCredit(s, m, id, x, cle, t).0)
  {
  }

  lemma CreerSain(s: Etat, m: Marchand, d: DemandeCredit, t: int)
    requires Saine(s)
    ensures Saine(CreerCredit(s, m, d, t).0)
  {
    if d.total.Nombre? {
      EncaissementSain(PoserCredit(s, m, d.client, d.total.n), m, |s.credits|, Verse(d), CleCreation(d.cle, |s.credits|), t);
    }
  }

  lemma PayerSain(s: Etat, m: Marchand, id: nat, cle: Option<string>, t: int)
    requires Saine(s)
    ensures Saine(MarquerPaye(s, m, id, cle, t).0)
  {
    if id < |s.credits| { EncaissementSain(s, m, id, Arrondir(s.credits[id].total - s.credits[id].acompte), CleReglement(cle, id), t); }
  }

  lemma LignesEtSessionsSaines(s: Etat, r: Requete)
    requires Saine(s) && !r.RVente? && !r.RCredit? && !r.RPayer? && !r.RAcompte? && !SurProduits(r)
    ensures Saine(Etape(s, r))
  {
  }

  lemma EtapeSaine(s: Etat, r: Requete)
    requires Saine(s)
    ensures Saine(Etape(s, r))
  {
    if SurProduits(r) { ProduitsSeuls(s, r); }
    else if r.RVente? { VenteSaine(s, r.m, r.vente, r.t); }
    else if r.RCredit? { CreerSain(s, r.m, r.credit, r.t); }
    else if r.RPayer? { PayerSain(s, r.m, r.id, r.cle, r.t); }
    else if r.RAcompte? { if r.verse.Some? && r.cle.Some? { EncaissementSain(s, r.m, r.id, r.verse.value, CleAcompte(r.cle.value), r.t); } }
    else { LignesEtSessionsSaines(s, r); }
  }

  lemma {:induction false} RunSaine(s: Etat, rs: seq<Requete>)
    requires Saine(s)
    ensures Saine(Executer(s, rs))
  {
    if rs != [] {
      RunSaine(s, rs[..|rs| - 1]);
      EtapeSaine(Executer(s, rs[..|rs| - 1]), rs[|rs| - 1]);
    }
  }

  /** The tables after the first k requests. */
  function Apres(s: Etat, rs: seq<Requete>, k: nat): Etat
    requires k <= |rs|
  {
    Executer(s, rs[..k])
  }

  lemma UnPas(s: Etat, rs: seq<Requete>, k: nat)
    requires k < |rs|
    ensures Apres(s, rs, k + 1) == Etape(Apres(s, rs, k), rs[k])
  {
    assert rs[..k + 1][..k] == rs[..k];
  }

  lemma {:induction false} TientJusqua(s: Etat, rs: seq<Requete>, k: nat)
    requires LoiConstat(s) && Saine(s) && k <= |rs|
    requires forall j :: 0 <= j < k ==> !Perturbe(Apres(s, rs, j), rs[j])
    ensures LoiConstat(Apres(s, rs, k))
  {
    if k > 0 {
      TientJusqua(s, rs, k - 1);
      UnPas(s, rs, k - 1);
      RunSaine(s, rs[..k - 1]);
      EtapeConstat(Apres(s, rs, k - 1), rs[k - 1]);
    }
  }

  /**
   Over whole runs: every closed day's statement is true after every step
   exactly when no step is one of those the closed-day guard misses.
   */
  lemma RunConstat(s: Etat, rs: seq<Requete>)
    requires LoiConstat(s) && Saine(s)
    ensures (forall k :: 0 <= k <= |rs| ==> LoiConstat(Apres(s, rs, k)))
       <==> (forall k :: 0 <= k < |rs| ==> !Perturbe(Apres(s, rs, k), rs[k]))
  {
    if forall k :: 0 <= k <= |rs| ==> LoiConstat(Apres(s, rs, k)) {
      forall k | 0 <= k < |rs| ensures !Perturbe(Apres(s, rs, k), rs[k]) {
        UnPas(s, rs, k);
        RunSaine(s, rs[..k]);
        EtapeConstat(Apres(s, rs, k), rs[k]);
      }
    }
    if forall k :: 0 <= k < |rs| ==> !Perturbe(Apres(s, rs, k), rs[k]) {
      forall k | 0 <= k <= |rs| ensures LoiConstat(Apres(s, rs, k)) { TientJusqua(s, rs, k); }
    }
  }

  /** Opening a day and closing it at the counted float leaves a true statement. */
  lemma OuvrirPuisFermer(m: Marchand, t: int, t': int)
    requires Jour(t) == Jour(t')
    ensures var s := Etape(Etape(VIDE, ROuvrir(m, Some(5000.0), t)), RFermer(m, Some(5000.0), t'));
      LoiConstat(s) && JourFerme(s, (m, Jour(t))) && s.ecritures == [] && s.sessions.Keys == {(m, Jour(t))}
  {
    assert Somme(Ventes(m, Jour(t)), []) == Somme(Encaissements(m, Jour(t)), []) == Somme(Depenses(m, Jour(t)), []) == 0.0;
  }

  /**
   The gap is real: from empty tables, open, close at the counted float, then record a
   sale claimed for that day the next morning. The statement no longer holds.
   */
  lemma VenteAntidateeCasseLeConstat(m: Marchand)
    ensures var rs := [
        ROuvrir(m, Some(5000.0), 0),
        RFermer(m, Some(5000.0), 1000),
        RVente(m, DemandeVente(None, Nombre(2000.0), [], "", 0.0, Some(500)), MS_PAR_JOUR + 1000)];
      LoiConstat(Executer(VIDE, rs[..2])) && Perturbe(Executer(VIDE, rs[..2]), rs[2]) && !LoiConstat(Executer(VIDE, rs))
  {
    var d := DemandeVente(None, Nombre(2000.0), [], "", 0.0, Some(500));
    var a, b, c := ROuvrir(m, Some(5000.0), 0), RFermer(m, Some(5000.0), 1000), RVente(m, d, MS_PAR_JOUR + 1000);
    PetitesRuns(VIDE, a, b, c);
    assert [a, b, c][..2] == [a, b];
    assert Jour(MS_PAR_JOUR + 1000) == 1 && Jour(0) == 0 && Jour(1000) == 0 && Jour(500) == 0;
    OuvrirPuisFermer(m, 0, 1000);
    VenteConstat(Executer(VIDE, [a, b]), m, d, MS_PAR_JOUR + 1000);
  }
}
