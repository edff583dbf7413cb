/**
 The till and the credits: the till leaves cancelled lines out of its accounts, a credit keeps what was paid on it.
 Exactly when the two agree, and which request parts them.
 */
module AccordLois {
  import opened Commun
  import opened Tables
  import opened Sommes
  import opened Caisse
  import opened CreditLois
  import ConstatLois

  // ── What the till received on a merchant's credits ──────────────────────

  predicate EncaisseDe(e: Ecriture, m: Marchand) { e.marchand == m && EstEncaissement(e) }

  function Recu(m: Marchand): Ecriture -> real { (e: Ecriture) => if EncaisseDe(e, m) then e.montant else 0.0 }

  /** What the till counts of it. */
  function RecuCompte(m: Marchand): Ecriture -> real {
    (e: Ecriture) => if EncaisseDe(e, m) && e.statut != Annulee then e.montant else 0.0
  }

  function RecuAnnule(m: Marchand): Ecriture -> real {
    (e: Ecriture) => if EncaisseDe(e, m) && e.statut == Annulee then e.montant else 0.0
  }

  lemma {:induction false} RecuEnDeux(es: seq<Ecriture>, m: Marchand)
    ensures Somme(Recu(m), es) == Somme(RecuCompte(m), es) + Somme(RecuAnnule(m), es)
  {
    if es != [] { RecuEnDeux(es[..|es| - 1], m); }
  }

  lemma {:induction false} RecuEtTraces(es: seq<Ecriture>, m: Marchand)
    ensures Somme(PaiementsDe(m), TracesCaisse(es)) == Somme(Recu(m), es)
  {
    if es != [] {
      var e := es[|es| - 1];
      RecuEtTraces(es[..|es| - 1], m);
      if EstEncaissement(e) { SommeAjout(PaiementsDe(m), TracesCaisse(es[..|es| - 1]), Trace(e.marchand, e.nature, e.montant)); }
      else { assert TracesCaisse(es) == TracesCaisse(es[..|es| - 1]); }
    }
  }

  /** What the accounts of n days, from day `jour`, count of it. */
  function RecuDesJours(es: seq<Ecriture>, m: Marchand, jour: int, n: nat): real {
    if n == 0 then 0.0 else RecuDesJours(es, m, jour, n - 1) + Somme(Encaissements(m, jour + n - 1), es)
  }

  lemma UneLigneUnJour(e: Ecriture, m: Marchand, jour: int, j: int)
    requires jour == Jour(e.creeLe)
    ensures Encaissements(m, j)(e) == if j == jour then RecuCompte(m)(e) else 0.0
  {
  }

  lemma {:induction false} UneLigneDesJours(es: seq<Ecriture>, e: Ecriture, m: Marchand, jour: int, n: nat)
    ensures var le := Jour(e.creeLe);
      RecuDesJours(es + [e], m, jour, n) == RecuDesJours(es, m, jour, n) + if jour <= le < jour + n then RecuCompte(m)(e) else 0.0
  {
    if n > 0 {
      UneLigneDesJours(es, e, m, jour, n - 1);
      SommeAjout(Encaissements(m, jour + n - 1), es, e);
      UneLigneUnJour(e, m, Jour(e.creeLe), jour + n - 1);
    }
  }

  lemma {:induction false} SansLigneSansRecu(m: Marchand, jour: int, n: nat)
    ensures RecuDesJours([], m, jour, n) == 0.0
  {
    if n > 0 { SansLigneSansRecu(m, jour, n - 1); }
  }

  /** The daily accounts together count each line that is not cancelled once. */
  lemma {:induction false} ComptesDesJours(es: seq<Ecriture>, m: Marchand, jour: int, n: nat)
    requires forall i :: 0 <= i < |es| && EncaisseDe(es[i], m) ==> jour <= Jour(es[i].creeLe) < jour + n
    ensures RecuDesJours(es, m, jour, n) == Somme(RecuCompte(m), es)
  {
    if es == [] {
      SansLigneSansRecu(m, jour, n);
    } else {
      var k := |es| - 1;
      ComptesDesJours(es[..k], m, jour, n);
      UneLigneDesJours(es[..k], es[k], m, jour, n);
      assert es == es[..k] + [es[k]];
    }
  }

  // ── When they agree ─────────────────────────────────────────────────────

  /** The lines the till counts add up to what the merchant's credits say was paid. */
  ghost predicate Accord(s: Etat, m: Marchand) { Somme(RecuCompte(m), s.ecritures) == Somme(AcomptesDe(m), s.credits) }

  ghost predicate AucunAnnule(es: seq<Ecriture>, m: Marchand) {
    forall i :: 0 <= i < |es| && EncaisseDe(es[i], m) ==> es[i].statut != Annulee
  }

  /** They differ by exactly what stands cancelled. */
  lemma EcartDesAnnules(s: Etat, m: Marchand)
    requires LoiCredit(s)
    ensures Somme(AcomptesDe(m), s.credits) == Somme(RecuCompte(m), s.ecritures) + Somme(RecuAnnule(m), s.ecritures)
  {
    CaisseEtCreditsDAccord(s, m);
    RecuEtTraces(s.ecritures, m);
    RecuEnDeux(s.ecritures, m);
  }

  /** So they agree if and only if none of her credit payment lines stands cancelled. */
  lemma AccordSsiRienAnnule(s: Etat, m: Marchand)
    requires LoiCredit(s) && ConstatLois.Saine(s)
    ensures Accord(s, m) <==> AucunAnnule(s.ecritures, m)
  {
    EcartDesAnnules(s, m);
    if AucunAnnule(s.ecritures, m) { SommeNulle(RecuAnnule(m), s.ecritures); }
    else {
      var i :| 0 <= i < |s.ecritures| && EncaisseDe(s.ecritures[i], m) && s.ecritures[i].statut == Annulee;
      SommePositive(RecuAnnule(m), s.ecritures);
      assert RecuAnnule(m)(s.ecritures[i]) > 0.0;
    }
  }

  // ── Which request parts them ────────────────────────────────────────────

  /** An administrator cancels one of the merchant's credit payment lines. */
  predicate AnnuleUnPaiement(s: Etat, r: Requete, m: Marchand) {
    r.RStatut? && r.statut == Annulee && r.motifValable && r.id < |s.ecritures| && EncaisseDe(s.ecritures[r.id], m)
  }

  lemma LigneEcrite(es: seq<Ecriture>, e: Ecriture, m: Marchand)
    requires e.statut != Annulee
    ensures AucunAnnule(es + [e], m) <==> AucunAnnule(es, m)
  {
    if AucunAnnule(es + [e], m) {
      forall i | 0 <= i < |es| && EncaisseDe(es[i], m) ensures es[i].statut != Annulee { assert (es + [e])[i] == es[i]; }
    }
  }

  lemma VenteHorsAccord(s: Etat, m: Marchand, d: DemandeVente, t: int, q: Marchand)
    ensures AucunAnnule(EnregistrerVente(s, m, d, t).0.ecritures, q) <==> AucunAnnule(s.ecritures, q)
  {
    if ConstatLois.VenteAcceptee(s, m, d, t) {
      var e := Ecriture(m, Vente, d.montant.n, Validee, InstantDe(d.date, t), d.cle);
      ConstatLois.LignesGardentEcritures(AssurerSession(s, (m, Jour(t))).(ecritures := s.ecritures + [e]), m, |s.ecritures|, LignesVendues(d));
      LigneEcrite(s.ecritures, e, q);
    }
  }

  lemma DepenseHorsAccord(s: Etat, m: Marchand, d: DemandeDepense, t: int, q: Marchand)
    ensures AucunAnnule(EnregistrerDepense(s, m, d, t).0.ecritures, q) <==> AucunAnnule(s.ecritures, q)
  {
    if ConstatLois.DepenseAcceptee(s, m, d, t) {
      LigneEcrite(s.ecritures, Ecriture(m, Depense, d.montant.n, Validee, InstantDe(d.date, t), d.cle), q);
    }
  }

  lemma PaiementHorsAccord(s: Etat, m: Marchand, id: nat, brut: real, cle: string, t: int, q: Marchand)
    ensures AucunAnnule(EncaisserCredit(s, m, id, brut, cle, t).0.ecritures, q) <==> AucunAnnule(s.ecritures, q)
  {
    var s' := EncaisserCredit(s, m, id, brut, cle, t).0;
    if s' != s { LigneEcrite(s.ecritures, s'.ecritures[|s.ecritures|], q); }
  }

  lemma CreerHorsAccord(s: Etat, m: Marchand, d: DemandeCredit, t: int, q: Marchand)
    ensures AucunAnnule(CreerCredit(s, m, d, t).0.ecritures, q) <==> AucunAnnule(s.ecritures, q)
  {
    if d.total.Nombre? {
      PaiementHorsAccord(PoserCredit(s, m, d.client, d.total.n), m, |s.credits|, Verse(d), CleCreation(d.cle, |s.credits|), t, q);
    }
  }

  lemma PayerHorsAccord(s: Etat, m: Marchand, id: nat, cle: Option<string>, t: int, q: Marchand)
    ensures AucunAnnule(MarquerPaye(s, m, id, cle, t).0.ecritures, q) <==> AucunAnnule(s.ecritures, q)
  {
    if id < |s.credits| {
      PaiementHorsAccord(s, m, id, Arrondir(s.credits[id].total - s.credits[id].acompte), CleReglement(cle, id), t, q);
    }
  }

  lemma CreditsHorsAccord(s: Etat, r: Requete, q: Marchand)
    requires r.RCredit? || r.RPayer? || r.RAcompte?
    ensures AucunAnnule(Etape(s, r).ecritures, q) <==> AucunAnnule(s.ecritures, q)
  {
    match r
    case RCredit(m, d, t) => CreerHorsAccord(s, m, d, t, q);
    case RPayer(m, id, cle, t) => PayerHorsAccord(s, m, id, cle, t, q);
    case RAcompte(m, id, x, cle, t) =>
      if x.Some? && cle.Some? { PaiementHorsAccord(s, m, id, x.value, CleAcompte(cle.value), t, q); }
  }

  /** Only that request makes a credit payment line stand cancelled; a merchant's own cancellation is of a sale. */
  lemma EtapeAnnules(s: Etat, r: Requete, q: Marchand)
    requires AucunAnnule(s.ecritures, q)
    ensures AucunAnnule(Etape(s, r).ecritures, q) <==> !AnnuleUnPaiement(s, r, q)
  {
    match r
    case RVente(m, d, t) => VenteHorsAccord(s, m, d, t, q);
    case RDepense(m, d, t) => DepenseHorsAccord(s, m, d, t, q);
    case REcriture(m, n, x, t) => LigneEcrite(s.ecritures, Ecriture(m, n, x, Validee, t, None), q);
    case RAnnuler(m, id, t) =>
    case RStatut(id, st, motif) =>
      if AnnuleUnPaiement(s, r, q) { assert EncaisseDe(Etape(s, r).ecritures[id], q); }
    case _ => if r.RCredit? || r.RPayer? || r.RAcompte? { CreditsHorsAccord(s, r, q); } else { SansEcriture(s, r); }
  }

  /** From agreement, a request keeps it if and only if it is not such a cancellation. */
  lemma EtapeAccord(s: Etat, r: Requete, m: Marchand)
    requires LoiCredit(s) && ConstatLois.Saine(s) && Accord(s, m)
    ensures Accord(Etape(s, r), m) <==> !AnnuleUnPaiement(s, r, m)
  {
    EtapeGardeLoiCredit(s, r);
    ConstatLois.EtapeSaine(s, r);
    AccordSsiRienAnnule(s, m);
    AccordSsiRienAnnule(Etape(s, r), m);
    EtapeAnnules(s, r, m);
  }

  lemma {:induction false} AccordJusqua(s: Etat, rs: seq<Requete>, m: Marchand, k: nat)
    requires LoiCredit(s) && ConstatLois.Saine(s) && Accord(s, m) && k <= |rs|
    requires forall j :: 0 <= j < k ==> !AnnuleUnPaiement(ConstatLois.Apres(s, rs, j), rs[j], m)
    ensures Accord(ConstatLois.Apres(s, rs, k), m)
  {
    if k > 0 {
      AccordJusqua(s, rs, m, k - 1);
      AccordUnPas(s, rs, m, k - 1);
    }
  }

  lemma AccordUnPas(s: Etat, rs: seq<Requete>, m: Marchand, k: nat)
    requires LoiCredit(s) && ConstatLois.Saine(s) && k < |rs| && Accord(ConstatLois.Apres(s, rs, k), m)
    ensures Accord(ConstatLois.Apres(s, rs, k + 1), m) <==> !AnnuleUnPaiement(ConstatLois.Apres(s, rs, k), rs[k], m)
  {
    ConstatLois.UnPas(s, rs, k);
    RunCredit(s, rs[..k]);
    ConstatLois.RunSaine(s, rs[..k]);
    EtapeAccord(ConstatLois.Apres(s, rs, k), rs[k], m);
  }

  /** Over whole runs: they agree after every step if and only if no step is such a cancellation. */
  lemma RunAccord(s: Etat, rs: seq<Requete>, m: Marchand)
    requires LoiCredit(s) && ConstatLois.Saine(s) && Accord(s, m)
    ensures (forall k :: 0 <= k <= |rs| ==> Accord(ConstatLois.Apres(s, rs, k), m))
       <==> (forall k :: 0 <= k < |rs| ==> !AnnuleUnPaiement(ConstatLois.Apres(s, rs, k), rs[k], m))
  {
    if forall k :: 0 <= k <= |rs| ==> Accord(ConstatLois.Apres(s, rs, k), m) {
      forall k | 0 <= k < |rs| ensures !AnnuleUnPaiement(ConstatLois.Apres(s, rs, k), rs[k], m) { AccordUnPas(s, rs, m, k); }
    }
    if forall k :: 0 <= k < |rs| ==> !AnnuleUnPaiement(ConstatLois.Apres(s, rs, k), rs[k], m) {
      forall k | 0 <= k <= |rs| ensures Accord(ConstatLois.Apres(s, rs, k), m) { AccordJusqua(s, rs, m, k); }
    }
  }

  // ── A run where they part ───────────────────────────────────────────────

  /** A credit in whole francs, settled at once, and its line cancelled by an administrator. */
  function RunQuiSepare(m: Marchand, total: real, t: int): seq<Requete> {
    [RCredit(m, DemandeCredit("Awa", Nombre(total), Absente, true, None), t), RPayer(m, 0, None, t), RStatut(0, Annulee, true)]
  }

  lemma SolderToutDeSuite(s: Etat, m: Marchand, total: real, t: int)
    requires s == PoserCredit(VIDE, m, "Awa", total) && Entier(total) && total > 0.0
    ensures var s' := MarquerPaye(s, m, 0, None, t).0;
      && s'.credits == [Credit(m, "Awa", total, total, true)] && s'.clients == map[(m, "Awa") := Client(1, 0.0)]
      && |s'.ecritures| == 1 && EncaisseDe(s'.ecritures[0], m)
  {
    assert (0.0 + 0.5).Floor == 0;
  }

  lemma AnnulerSeule(s: Etat, m: Marchand, total: real)
    requires |s.ecritures| == 1 && EncaisseDe(s.ecritures[0], m) && total > 0.0 && s.credits == [Credit(m, "Awa", total, total, true)]
    ensures var s' := Etape(s, RStatut(0, Annulee, true));
      s'.credits == s.credits && s'.clients == s.clients && Somme(RecuCompte(m), s'.ecritures) == 0.0 && !Accord(s', m)
  {
    var e, s' := s.ecritures[0].(statut := Annulee), Etape(s, RStatut(0, Annulee, true));
    assert s'.ecritures == [] + [e] && s'.credits == [] + s.credits;
    SommeAjout(RecuCompte(m), [], e);
    SommeAjout(AcomptesDe(m), [], s.credits[0]);
  }

  /** Whatever the whole amount: the credit stays paid and the client owes nothing, and the till counts nothing of it. */
  lemma PaiementAnnule(m: Marchand, total: real, t: int)
    requires Entier(total) && total > 0.0
    ensures var s := Executer(VIDE, RunQuiSepare(m, total, t));
      && s.credits == [Credit(m, "Awa", total, total, true)] && s.clients == map[(m, "Awa") := Client(1, 0.0)]
      && Somme(RecuCompte(m), s.ecritures) == 0.0 && !Accord(s, m)
  {
    var rs, s1 := RunQuiSepare(m, total, t), PoserCredit(VIDE, m, "Awa", total);
    PetitesRuns(VIDE, rs[0], rs[1], rs[2]);
    CreerEtSolder(VIDE, m, total, 0, t);
    CreerEtSolder(s1, m, total, 0, t);
    SolderToutDeSuite(s1, m, total, t);
    AnnulerSeule(MarquerPaye(s1, m, 0, None, t).0, m, total);
  }
}
