/** The stock laws over whole runs of the till, cancellations by the merchant and by administrators included. */
module StockRuns {
  import opened Commun
  import opened Tables
  import opened Stock
  import opened StockLois
  import opened Caisse
  import ConstatLois

  /** The stock a request types in for an existing product, and which. */
  function Saisie(s: Etat, r: Requete): Option<(nat, real)> {
    match r
    case RProduit(m, id, c) =>
      if c.stock.Some? && ModifierProduit(s, m, id, c).1.Ok? then Some((id, c.stock.value)) else None
    case RStock(m, id, _, q, _, cle) =>
      if q.Some? && EstA(s.produits, id, m) && (cle.Some? ==> cle.value !in s.clesStock) then Some((id, q.value)) else None
    case _ => None
  }

  /** The stock of the product a request creates. */
  function Creation(s: Etat, r: Requete): Option<real> {
    match r
    case RNouveauProduit(m, nom, stock, unite) =>
      if CreerProduit(s, m, nom, stock, unite).1.Ok? then Some(if stock.Some? then stock.value else 0.0) else None
    case RPoserStock(m, nom, q, u) => if nom.Some? then Some(q) else None
    case _ => None
  }

  /** The marks after a request: a product created, or whose stock is typed in, starts a new account. */
  function ReperesApres(reps: seq<Repere>, s: Etat, r: Requete): seq<Repere>
    requires |reps| == |s.produits|
  {
    if Creation(s, r).Some? then reps + [Repere(Creation(s, r).value, |s.mouvements|)]
    else if Saisie(s, r).Some? then reps[Saisie(s, r).value.0 := Repere(Saisie(s, r).value.1, |s.mouvements|)]
    else reps
  }

  lemma MemeStock(s: Etat, s': Etat, reps: seq<Repere>)
    requires LoiStock(s, reps) && s'.mouvements == s.mouvements && |s'.produits| == |s.produits|
    requires forall p :: 0 <= p < |s.produits| && s'.produits[p].Some? ==>
      s.produits[p].Some? && StockLu(s'.produits[p]) == StockLu(s.produits[p])
    ensures LoiStock(s', reps)
  {
    forall p | 0 <= p < |reps| ensures StockSuitLedger(s', reps, p) { assert StockSuitLedger(s, reps, p); }
  }

  lemma VenteGardeStock(s: Etat, reps: seq<Repere>, m: Marchand, d: DemandeVente, t: int)
    requires LoiStock(s, reps)
    ensures LoiStock(EnregistrerVente(s, m, d, t).0, reps)
  {
    if ConstatLois.VenteAcceptee(s, m, d, t) {
      var e := Ecriture(m, Vente, d.montant.n, Validee, InstantDe(d.date, t), d.cle);
      var s1 := AssurerSession(s, (m, Jour(t))).(ecritures := s.ecritures + [e]);
      MemeStock(s, s1, reps);
      LignesGardentLoiStock(s1, reps, m, |s.ecritures|, LignesVendues(d));
    } else {
      MemeStock(s, EnregistrerVente(s, m, d, t).0, reps);
    }
  }

  lemma RestituerGardeStock(s: Etat, reps: seq<Repere>, es: seq<Ecriture>, tx: nat)
    requires LoiStock(s, reps)
    ensures LoiStock(RestituerStock(s.(ecritures := es), tx), reps)
  {
    var s1 := s.(ecritures := es);
    MemeStock(s, s1, reps);
    RestitutionGardeLoiStock(s1, reps, s1.mouvements, tx, |s1.produits|);
  }

  lemma NouveauProduitGardeStock(s: Etat, reps: seq<Repere>, r: Requete)
    requires LoiStock(s, reps) && (r.RNouveauProduit? || r.RPoserStock?)
    ensures LoiStock(Etape(s, r), ReperesApres(reps, s, r))
  {
    var s', reps' := Etape(s, r), ReperesApres(reps, s, r);
    forall p | 0 <= p < |reps'| ensures StockSuitLedger(s', reps', p) {
      if p < |reps| { assert StockSuitLedger(s, reps, p); }
      else { assert s'.mouvements[reps'[p].depuis..] == []; }
    }
  }

  lemma ProduitGardeStock(s: Etat, reps: seq<Repere>, r: Requete)
    requires LoiStock(s, reps) && (r.RProduit? || r.RSupprimer? || r.RStock? || r.REffacer?)
    ensures LoiStock(Etape(s, r), ReperesApres(reps, s, r))
  {
    var s', reps' := Etape(s, r), ReperesApres(reps, s, r);
    assert s'.mouvements == s.mouvements && |s'.produits| == |s.produits| == |reps'| && Creation(s, r).None?;
    forall p | 0 <= p < |reps'| ensures StockSuitLedger(s', reps', p) {
      assert StockSuitLedger(s, reps, p);
      StockTape(s, r, p);
      if Saisie(s, r).Some? && Saisie(s, r).value.0 == p { assert s'.mouvements[|s.mouvements|..] == []; }
    }
  }

  /** A stock is typed in, or left alone with its row, or gone with it. */
  lemma StockTape(s: Etat, r: Requete, p: nat)
    requires (r.RProduit? || r.RSupprimer? || r.RStock? || r.REffacer?) && p < |s.produits|
    ensures p < |Etape(s, r).produits|
    ensures var x := Etape(s, r).produits[p];
      x.Some? ==> s.produits[p].Some?
                  && StockLu(x) == if Saisie(s, r).Some? && Saisie(s, r).value.0 == p then Saisie(s, r).value.1 else StockLu(s.produits[p])
  {
  }

  lemma EtapeStock(s: Etat, reps: seq<Repere>, r: Requete)
    requires LoiStock(s, reps)
    ensures LoiStock(Etape(s, r), ReperesApres(reps, s, r))
  {
    match r
    case RVente(m, d, t) => VenteGardeStock(s, reps, m, d, t);
    case RAnnuler(m, id, t) =>
      if id < |s.ecritures| { RestituerGardeStock(s, reps, s.ecritures[id := s.ecritures[id].(statut := Annulee)], id); }
    case RStatut(id, st, motif) =>
      if id < |s.ecritures| {
        RestituerGardeStock(s, reps, s.ecritures[id := s.ecritures[id].(statut := st)], id);
        MemeStock(s, s.(ecritures := s.ecritures[id := s.ecritures[id].(statut := st)]), reps);
      }
    case _ =>
      if r.RNouveauProduit? || r.RPoserStock? { NouveauProduitGardeStock(s, reps, r); }
      else if SurProduits(r) { ProduitGardeStock(s, reps, r); }
      else { MemeStock(s, Etape(s, r), reps); }
  }

  /** The marks after a run. */
  function Reperes(reps: seq<Repere>, s: Etat, rs: seq<Requete>): (r: seq<Repere>)
    requires |reps| == |s.produits|
    ensures |r| == |Executer(s, rs).produits|
  {
    if rs == [] then reps
    else
      var a := rs[..|rs| - 1];
      TailleProduits(Executer(s, a), rs[|rs| - 1]);
      ReperesApres(Reperes(reps, s, a), Executer(s, a), rs[|rs| - 1])
  }

  lemma TailleProduits(s: Etat, r: Requete)
    ensures |Etape(s, r).produits| == |s.produits| + if Creation(s, r).Some? then 1 else 0
  {
  }

  /** Over every run each product's stock is its last typed stock minus what its later ledger rows took. */
  lemma {:induction false} RunStock(s: Etat, reps: seq<Repere>, rs: seq<Requete>)
    requires LoiStock(s, reps)
    ensures LoiStock(Executer(s, rs), Reperes(reps, s, rs))
  {
    if rs != [] {
      RunStock(s, reps, rs[..|rs| - 1]);
      EtapeStock(Executer(s, rs[..|rs| - 1]), Reperes(reps, s, rs[..|rs| - 1]), rs[|rs| - 1]);
    }
  }

  /** A stock typed in by hand that is negative. */
  predicate SaisieNegative(r: Requete) {
    || (r.RNouveauProduit? && r.stock.Some? && r.stock.value < 0.0)
    || (r.RProduit? && r.colonnes.stock.Some? && r.colonnes.stock.value < 0.0)
    || (r.RPoserStock? && r.quantite < 0.0)
    || (r.RStock? && r.compte.Some? && r.compte.value < 0.0)
  }

  lemma SaisiesStocksPositifs(s: Etat, r: Requete)
    requires StocksPositifs(s) && !SaisieNegative(r) && !r.RVente? && !r.RAnnuler? && !r.RStatut?
    ensures StocksPositifs(Etape(s, r))
  {
  }

  lemma EtapeStocksPositifs(s: Etat, r: Requete)
    requires StocksPositifs(s) && !SaisieNegative(r)
    ensures StocksPositifs(Etape(s, r))
  {
    match r
    case RVente(m, d, t) =>
      if ConstatLois.VenteAcceptee(s, m, d, t) {
        var e := Ecriture(m, Vente, d.montant.n, Validee, InstantDe(d.date, t), d.cle);
        LignesGardentStocksPositifs(AssurerSession(s, (m, Jour(t))).(ecritures := s.ecritures + [e]), m, |s.ecritures|, LignesVendues(d));
      }
    case RAnnuler(m, id, t) =>
      if id < |s.ecritures| {
        RestitutionGardeStocksPositifs(s.(ecritures := s.ecritures[id := s.ecritures[id].(statut := Annulee)]), s.mouvements, id, |s.produits|);
      }
    case RStatut(id, st, motif) =>
      if id < |s.ecritures| {
        RestitutionGardeStocksPositifs(s.(ecritures := s.ecritures[id := s.ecritures[id].(statut := st)]), s.mouvements, id, |s.produits|);
      }
    case _ => SaisiesStocksPositifs(s, r);
  }

  /** From non-negative stocks, no run without a negative stock typed in takes one below zero. */
  lemma {:induction false} RunStocksPositifs(s: Etat, rs: seq<Requete>)
    requires StocksPositifs(s) && forall k :: 0 <= k < |rs| ==> !SaisieNegative(rs[k])
    ensures StocksPositifs(Executer(s, rs))
  {
    if rs != [] {
      RunStocksPositifs(s, rs[..|rs| - 1]);
      EtapeStocksPositifs(Executer(s, rs[..|rs| - 1]), rs[|rs| - 1]);
    }
  }

  // ── Restitutions over runs ──────────────────────────────────────────────

  /**
   The sale's account for a product, from one state to a later one: what it took is fixed; once given back it
   stays so; and once the product's row is gone nothing moves any more.
   */
  ghost predicate CompteSuivi(s: Etat, s': Etat, tx: nat, p: nat) {
    && Pris(s'.mouvements, tx, p) == Pris(s.mouvements, tx, p)
    && (Net(s.mouvements, tx, p) == 0.0 ==> Net(s'.mouvements, tx, p) == 0.0)
    && (Efface(s.produits, p) ==> Efface(s'.produits, p) && Net(s'.mouvements, tx, p) == Net(s.mouvements, tx, p))
  }

  /** A product's place is never taken again. */
  ghost predicate LignesPerdues(s: Etat, s': Etat) {
    |s.produits| <= |s'.produits| && forall i :: 0 <= i < |s.produits| && s.produits[i].None? ==> s'.produits[i].None?
  }

  lemma VenteRestitution(s: Etat, m: Marchand, d: DemandeVente, t: int, tx: nat, p: nat)
    requires LoiRestitution(s)
    ensures LoiRestitution(EnregistrerVente(s, m, d, t).0)
    ensures tx < |s.ecritures| ==> CompteSuivi(s, EnregistrerVente(s, m, d, t).0, tx, p)
    ensures |EnregistrerVente(s, m, d, t).0.ecritures| >= |s.ecritures|
  {
    var s' := EnregistrerVente(s, m, d, t).0;
    if ConstatLois.VenteAcceptee(s, m, d, t) {
      var e := Ecriture(m, Vente, d.montant.n, Validee, InstantDe(d.date, t), d.cle);
      var s1 := AssurerSession(s, (m, Jour(t))).(ecritures := s.ecritures + [e]);
      EcritureSansMouvement(s, s1);
      ConstatLois.LignesGardentEcritures(s1, m, |s.ecritures|, LignesVendues(d));
      LignesGardentRestitution(s1, m, |s.ecritures|, LignesVendues(d));
      EffetDesLignes(s1, m, |s.ecritures|, LignesVendues(d), tx, p);
      NetEstPrisMoinsRendu(s.mouvements, tx, p);
      NetEstPrisMoinsRendu(s'.mouvements, tx, p);
    } else {
      EcritureSansMouvement(s, s');
    }
  }

  /** Appending a line that is not cancelled, adding or deleting a product, leaves every account just. */
  lemma EcritureSansMouvement(s: Etat, s': Etat)
    requires LoiRestitution(s) && s'.mouvements == s.mouvements && LignesPerdues(s, s')
    requires |s.ecritures| <= |s'.ecritures|
    requires forall i :: 0 <= i < |s.ecritures| ==> s'.ecritures[i].statut == s.ecritures[i].statut
    requires forall i :: |s.ecritures| <= i < |s'.ecritures| ==> s'.ecritures[i].statut != Annulee
    ensures LoiRestitution(s')
  {
    forall tx: nat, p: nat | tx < |s'.ecritures| ensures RestitutionJuste(s', tx, p) {
      if tx < |s.ecritures| { assert RestitutionJuste(s, tx, p); }
      else { VenteSansLigne(s, tx, p); }
    }
  }

  lemma StatutRestitution(s: Etat, id: nat, statut: Statut, motif: bool, tx: nat, p: nat)
    requires LoiRestitution(s)
    ensures LoiRestitution(ChangerStatut(s, id, statut, motif).0)
    ensures CompteSuivi(s, ChangerStatut(s, id, statut, motif).0, tx, p)
    ensures |ChangerStatut(s, id, statut, motif).0.ecritures| == |s.ecritures|
  {
    var s' := ChangerStatut(s, id, statut, motif).0;
    if id < |s.ecritures| {
      if statut == Annulee && s.ecritures[id].statut != Annulee {
        AnnulationRestitution(s, id, tx, p);
      } else {
        forall t: nat, q: nat | t < |s'.ecritures| ensures RestitutionJuste(s', t, q) { assert RestitutionJuste(s, t, q); }
      }
    }
  }

  /** The common end of both cancellations: status first, stock given back in the same transaction. */
  lemma AnnulationRestitution(s: Etat, id: nat, tx: nat, p: nat)
    requires LoiRestitution(s) && id < |s.ecritures|
    ensures var s' := RestituerStock(s.(ecritures := s.ecritures[id := s.ecritures[id].(statut := Annulee)]), id);
      LoiRestitution(s') && CompteSuivi(s, s', tx, p) && |s'.ecritures| == |s.ecritures|
  {
    var es := s.ecritures[id := s.ecritures[id].(statut := Annulee)];
    RestitutionGardeRestitution(s, id, Annulee);
    EcrituresIndifferentes(s, es, s.mouvements, id, |s.produits|);
    assert RestituerStock(s.(ecritures := es), id)
        == RestituerStock(s, id).(ecritures := s.ecritures[id := s.ecritures[id].(statut := Annulee)]);
    RestitutionExacte(s, id, p);
    NetEstPrisMoinsRendu(s.mouvements, tx, p);
    NetEstPrisMoinsRendu(RestituerStock(s, id).mouvements, tx, p);
  }

  /** A restitution does not look at the till's lines. */
  lemma {:induction false} EcrituresIndifferentes(s: Etat, es: seq<Ecriture>, ledger: seq<Mouvement>, tx: nat, n: nat)
    requires n <= |s.produits|
    ensures RestituerJusqua(s.(ecritures := es), ledger, tx, n) == RestituerJusqua(s, ledger, tx, n).(ecritures := es)
  {
    if n > 0 {
      var m := RestituerJusqua(s, ledger, tx, n - 1);
      EcrituresIndifferentes(s, es, ledger, tx, n - 1);
      assert RestituerJusqua(s.(ecritures := es), ledger, tx, n - 1) == m.(ecritures := es);
      UnRetourIndifferent(m, es, ledger, tx, n - 1);
    }
  }

  lemma UnRetourIndifferent(s: Etat, es: seq<Ecriture>, ledger: seq<Mouvement>, tx: nat, p: nat)
    ensures RestituerUn(s.(ecritures := es), ledger, tx, p) == RestituerUn(s, ledger, tx, p).(ecritures := es)
  {
  }

  lemma AnnulerRestitution(s: Etat, m: Marchand, id: nat, t: int, tx: nat, p: nat)
    requires LoiRestitution(s)
    ensures var s' := AnnulerVente(s, m, id, t).0;
      LoiRestitution(s') && CompteSuivi(s, s', tx, p) && |s'.ecritures| == |s.ecritures|
  {
    if id < |s.ecritures| { AnnulationRestitution(s, id, tx, p); }
  }

  /** The other routes move no stock row and cancel nothing. */
  lemma AutresRestitution(s: Etat, r: Requete)
    requires !r.RVente? && !r.RAnnuler? && !r.RStatut?
    ensures var s' := Etape(s, r);
      && s'.mouvements == s.mouvements && LignesPerdues(s, s') && |s.ecritures| <= |s'.ecritures|
      && (forall i :: 0 <= i < |s.ecritures| ==> s'.ecritures[i] == s.ecritures[i])
      && (forall i :: |s.ecritures| <= i < |s'.ecritures| ==> s'.ecritures[i].statut == Validee)
  {
    if SurProduits(r) { ProduitsPerdus(s, r); }
  }

  lemma ProduitsPerdus(s: Etat, r: Requete)
    requires SurProduits(r)
    ensures LignesPerdues(s, Etape(s, r)) && Etape(s, r).mouvements == s.mouvements && Etape(s, r).ecritures == s.ecritures
  {
  }

  lemma EtapeRestitution(s: Etat, r: Requete, tx: nat, p: nat)
    requires LoiRestitution(s)
    ensures LoiRestitution(Etape(s, r)) && (tx < |s.ecritures| ==> CompteSuivi(s, Etape(s, r), tx, p))
    ensures |Etape(s, r).ecritures| >= |s.ecritures|
  {
    match r
    case RVente(m, d, t) => VenteRestitution(s, m, d, t, tx, p);
    case RAnnuler(m, id, t) => AnnulerRestitution(s, m, id, t, tx, p);
    case RStatut(id, st, motif) => StatutRestitution(s, id, st, motif, tx, p);
    case _ => AutresRestitution(s, r); EcritureSansMouvement(s, Etape(s, r));
  }

  /**
   Over every run, with whatever sales and cancellations interleave: what a recorded sale took
   of a product never changes, and once it has been given back the account stays at zero.
   */
  lemma {:induction false} RunRestitution(s: Etat, rs: seq<Requete>, tx: nat, p: nat)
    requires LoiRestitution(s)
    ensures LoiRestitution(Executer(s, rs)) && |Executer(s, rs).ecritures| >= |s.ecritures|
    ensures tx < |s.ecritures| ==> CompteSuivi(s, Executer(s, rs), tx, p)
  {
    if rs != [] {
      var a := rs[..|rs| - 1];
      RunRestitution(s, a, tx, p);
      EtapeRestitution(Executer(s, a), rs[|rs| - 1], tx, p);
    }
  }

  /** The request cancels till line id: the merchant's own route, or an administrator's, on a line not cancelled yet. */
  predicate Annule(s: Etat, r: Requete, id: nat) {
    match r
    case RAnnuler(m, i, t) => i == id && AnnulerVente(s, m, i, t).1.Ok?
    case RStatut(i, statut, motif) =>
      i == id && statut == Annulee && ChangerStatut(s, i, statut, motif).1.Ok? && id < |s.ecritures| && s.ecritures[id].statut != Annulee
    case _ => false
  }

  /**
   A cancellation, anywhere in a run: each product whose row is there receives exactly what the sale still held
   of it. The sale then holds nothing of p if and only if p's row was there or it held nothing of p already.
   */
  lemma AnnulationRend(s: Etat, r: Requete, id: nat, p: nat)
    requires LoiRestitution(s) && Annule(s, r, id)
    ensures var s' := Etape(s, r);
      && id < |s'.ecritures| && s'.ecritures[id].statut == Annulee
      && (Net(s'.mouvements, id, p) == 0.0 <==> Existe(s.produits, p) || Net(s.mouvements, id, p) == 0.0)
      && (if Existe(s.produits, p)
          then Existe(s'.produits, p) && StockLu(s'.produits[p]) - StockLu(s.produits[p]) == Net(s.mouvements, id, p)
          else !Existe(s'.produits, p) && Net(s'.mouvements, id, p) == Net(s.mouvements, id, p))
      && Net(s.mouvements, id, p) == Pris(s.mouvements, id, p) - Rendu(s.mouvements, id, p)
      && (Net(s.mouvements, id, p) == 0.0 || Net(s.mouvements, id, p) == Pris(s.mouvements, id, p))
  {
    var es := s.ecritures[id := s.ecritures[id].(statut := Annulee)];
    EcrituresIndifferentes(s, es, s.mouvements, id, |s.produits|);
    RestitutionExacte(s, id, p);
  }

  /**
   And for ever: however the run goes on, and were the sale reinstated and cancelled again, it holds nothing of p
   if and only if p's row was there when it was cancelled or it held nothing of p then.
   */
  lemma AnnulationDefinitive(s: Etat, r: Requete, id: nat, p: nat, rs: seq<Requete>)
    requires LoiRestitution(s) && Annule(s, r, id)
    ensures Net(Executer(Etape(s, r), rs).mouvements, id, p) == 0.0 <==> Existe(s.produits, p) || Net(s.mouvements, id, p) == 0.0
  {
    AnnulationRend(s, r, id, p);
    EtapeRestitution(s, r, id, p);
    RunRestitution(Etape(s, r), rs, id, p);
    assert RestitutionJuste(s, id, p);
  }

  // ── A product deleted between a sale and its cancellation ───────────────

  /** Whatever the sale: cancelled after its product was deleted, it never gives back what it holds of it. */
  lemma EffacerPuisAnnuler(s: Etat, m: Marchand, p: nat, r: Requete, id: nat, rs: seq<Requete>)
    requires LoiRestitution(s) && id < |s.ecritures| && EstA(s.produits, p, m)
    requires Annule(EffacerProduit(s, m, p), r, id)
    ensures Net(Executer(Etape(EffacerProduit(s, m, p), r), rs).mouvements, id, p) == Net(s.mouvements, id, p)
  {
    var s1 := EffacerProduit(s, m, p);
    EcritureSansMouvement(s, s1);
    EtapeRestitution(s1, r, id, p);
    RunRestitution(Etape(s1, r), rs, id, p);
  }

  const TROIS_RIZ := DemandeVente(None, Nombre(1500.0), [Ligne("Riz", 3.0, Some(0))], "", 0.0, None)

  function AvecDuRiz(m: Marchand): Etat { VIDE.(produits := [Some(Produit(m, "Riz", Some(10.0), Some("tas"), true))]) }

  /** Ten in stock, three sold, the product deleted, the sale cancelled the same day. */
  function RunPerdant(m: Marchand, t: int): seq<Requete> {
    [RNouveauProduit(m, "Riz", Some(10.0), "tas"), RVente(m, TROIS_RIZ, t), REffacer(m, 0), RAnnuler(m, 0, t)]
  }

  lemma PoserDuRiz(m: Marchand)
    ensures Etape(VIDE, RNouveauProduit(m, "Riz", Some(10.0), "tas")) == AvecDuRiz(m)
  {
    assert Rogner("Riz") == "Riz" && Rogner("tas") == "tas";
  }

  lemma VenteDeRiz(m: Marchand, t: int)
    ensures var s' := EnregistrerVente(AvecDuRiz(m), m, TROIS_RIZ, t).0;
      && s'.ecritures == [Ecriture(m, Vente, 1500.0, Validee, t, None)]
      && EstA(s'.produits, 0, m) && !JourFerme(s', (m, Jour(t)))
      && Net(s'.mouvements, 0, 0) == 3.0
  {
    var s, ls := AvecDuRiz(m), [Ligne("Riz", 3.0, Some(0))];
    var s1 := AssurerSession(s, (m, Jour(t))).(ecritures := s.ecritures + [Ecriture(m, Vente, 1500.0, Validee, t, None)]);
    var s' := AppliquerLignes(s1, m, 0, ls);
    assert ls[..0] == [];
    assert Demande(s1.produits, m, ls, 0) == 3.0;
    PanierExact(s1, m, 0, ls, 0);
    EffetDesLignes(s1, m, 0, ls, 0, 0);
    VenteSansLigne(s1, 0, 0);
    NetEstPrisMoinsRendu(s'.mouvements, 0, 0);
  }

  /** The sale ends cancelled, and three are taken from the stock for ever: no later request gives them back. */
  lemma ProduitEffaceJamaisRendu(m: Marchand, t: int, rs: seq<Requete>)
    ensures var s := Executer(VIDE, RunPerdant(m, t));
      && |s.ecritures| == 1 && s.ecritures[0].statut == Annulee
      && Net(Executer(s, rs).mouvements, 0, 0) == 3.0
  {
    var s1 := EnregistrerVente(AvecDuRiz(m), m, TROIS_RIZ, t).0;
    RunPerdantDeroule(m, t);
    VenteDeRiz(m, t);
    RestitutionAuDepart(m, t);
    AnnulerCeJour(EffacerProduit(s1, m, 0), m, t);
    EffacerPuisAnnuler(s1, m, 0, RAnnuler(m, 0, t), 0, rs);
  }

  lemma RunPerdantDeroule(m: Marchand, t: int)
    ensures Executer(VIDE, RunPerdant(m, t))
         == Etape(EffacerProduit(EnregistrerVente(AvecDuRiz(m), m, TROIS_RIZ, t).0, m, 0), RAnnuler(m, 0, t))
  {
    PoserDuRiz(m);
    QuatreEtapes(VIDE, RNouveauProduit(m, "Riz", Some(10.0), "tas"), RVente(m, TROIS_RIZ, t), REffacer(m, 0), RAnnuler(m, 0, t));
  }

  lemma QuatreEtapes(s: Etat, a: Requete, b: Requete, c: Requete, d: Requete)
    ensures Executer(s, [a, b, c, d]) == Etape(Etape(Etape(Etape(s, a), b), c), d)
  {
    PetitesRuns(s, a, b, c);
    var rs := [a, b, c, d];
    assert rs[..3] == [a, b, c] && rs[3] == d;
    assert Executer(s, rs) == Etape(Executer(s, rs[..3]), d);
  }

  lemma RestitutionAuDepart(m: Marchand, t: int)
    ensures LoiRestitution(EnregistrerVente(AvecDuRiz(m), m, TROIS_RIZ, t).0)
  {
    EtapeRestitution(VIDE, RNouveauProduit(m, "Riz", Some(10.0), "tas"), 0, 0);
    PoserDuRiz(m);
    EtapeRestitution(AvecDuRiz(m), RVente(m, TROIS_RIZ, t), 0, 0);
  }

  lemma AnnulerCeJour(s: Etat, m: Marchand, t: int)
    requires s.ecritures == [Ecriture(m, Vente, 1500.0, Validee, t, None)] && !JourFerme(s, (m, Jour(t)))
    ensures Annule(s, RAnnuler(m, 0, t), 0)
    ensures |Etape(s, RAnnuler(m, 0, t)).ecritures| == 1 && Etape(s, RAnnuler(m, 0, t)).ecritures[0].statut == Annulee
  {
  }

  // ── When a row is gone ──────────────────────────────────────────────────

  lemma HorsProduits(s: Etat, r: Requete)
    requires !SurProduits(r)
    ensures MemesProduits(s.produits, Etape(s, r).produits)
  {
  }

  lemma SurUnProduit(s: Etat, r: Requete, p: nat)
    requires Existe(s.produits, p) && SurProduits(r)
    ensures p < |Etape(s, r).produits|
    ensures var m := s.produits[p].value.marchand;
      if r == REffacer(m, p) then Efface(Etape(s, r).produits, p) else EstA(Etape(s, r).produits, p, m)
  {
  }

  /** A request keeps the owner of every product, and deletes only the row its DELETE names, for its owner. */
  lemma EtapeProduits(s: Etat, r: Requete, p: nat)
    requires Existe(s.produits, p)
    ensures p < |Etape(s, r).produits|
    ensures var m := s.produits[p].value.marchand;
      if r == REffacer(m, p) then Efface(Etape(s, r).produits, p) else EstA(Etape(s, r).produits, p, m)
  {
    if SurProduits(r) { SurUnProduit(s, r, p); } else { HorsProduits(s, r); }
  }

  /** Over every run, a product's row is gone exactly when its owner asked for its deletion. */
  lemma {:induction false} EffaceSsiDemande(s: Etat, rs: seq<Requete>, p: nat)
    requires Existe(s.produits, p)
    ensures var m := s.produits[p].value.marchand;
      if REffacer(m, p) in rs then Efface(Executer(s, rs).produits, p) else EstA(Executer(s, rs).produits, p, m)
  {
    if rs != [] {
      var n, m := |rs| - 1, s.produits[p].value.marchand;
      EffaceSsiDemande(s, rs[..n], p);
      assert rs == rs[..n] + [rs[n]];
      if REffacer(m, p) in rs[..n] { ResteEfface(Executer(s, rs[..n]), rs[n], p); }
      else { EtapeProduits(Executer(s, rs[..n]), rs[n], p); }
    }
  }

  lemma ResteEfface(s: Etat, r: Requete, p: nat)
    requires Efface(s.produits, p)
    ensures Efface(Etape(s, r).produits, p)
  {
    if SurProduits(r) { ProduitsPerdus(s, r); } else { HorsProduits(s, r); }
  }
}
