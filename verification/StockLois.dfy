/** The laws of the stock: it is what its ledger says, and a cancellation undoes a sale exactly once. */
module StockLois {
  import opened Commun
  import opened Tables
  import opened Sommes
  import opened Stock

  // ── Stock equals ledger ─────────────────────────────────────────────────

  /** The last stock set by hand, and how many ledger rows preceded it. */
  datatype Repere = Repere(base: real, depuis: nat)

  ghost predicate StockSuitLedger(s: Etat, reps: seq<Repere>, p: nat)
    requires p < |s.produits| && p < |reps|
  {
    && reps[p].depuis <= |s.mouvements|
    && (s.produits[p].Some? ==>
          StockLu(s.produits[p]) == reps[p].base - Somme(SurProduit(p), s.mouvements[reps[p].depuis..]))
  }

  ghost predicate LoiStock(s: Etat, reps: seq<Repere>) {
    |reps| == |s.produits| && forall p :: 0 <= p < |reps| ==> StockSuitLedger(s, reps, p)
  }

  ghost predicate StocksPositifs(s: Etat) {
    forall p :: 0 <= p < |s.produits| ==> StockLu(s.produits[p]) >= 0.0
  }

  /** One more row in the ledger, matched by one stock write (or by none when it takes nothing). */
  lemma UneLigneDeLedger(s: Etat, s': Etat, reps: seq<Repere>, m: Mouvement)
    requires LoiStock(s, reps)
    requires s'.mouvements == s.mouvements + [m] && |s'.produits| == |s.produits|
    requires forall p :: 0 <= p < |s.produits| && s'.produits[p].Some? ==>
      s.produits[p].Some? && StockLu(s'.produits[p]) == StockLu(s.produits[p]) - SurProduit(p)(m)
    ensures LoiStock(s', reps)
  {
    forall p | 0 <= p < |reps| ensures StockSuitLedger(s', reps, p) {
      assert StockSuitLedger(s, reps, p);
      var d := reps[p].depuis;
      assert s'.mouvements[d..] == s.mouvements[d..] + [m];
      SommeAjout(SurProduit(p), s.mouvements[d..], m);
    }
  }

  lemma LigneGardeLoiStock(s: Etat, reps: seq<Repere>, marchand: Marchand, tx: nat, l: Ligne)
    requires LoiStock(s, reps)
    ensures LoiStock(AppliquerLigne(s, marchand, tx, l), reps)
  {
    if LigneUtile(l) {
      var s' := AppliquerLigne(s, marchand, tx, l);
      UneLigneDeLedger(s, s', reps, s'.mouvements[|s.mouvements|]);
    }
  }

  lemma {:induction false} LignesGardentLoiStock(s: Etat, reps: seq<Repere>, marchand: Marchand, tx: nat, ls: seq<Ligne>)
    requires LoiStock(s, reps)
    ensures LoiStock(AppliquerLignes(s, marchand, tx, ls), reps)
  {
    if ls != [] {
      LignesGardentLoiStock(s, reps, marchand, tx, ls[..|ls| - 1]);
      LigneGardeLoiStock(AppliquerLignes(s, marchand, tx, ls[..|ls| - 1]), reps, marchand, tx, ls[|ls| - 1]);
    }
  }

  lemma {:induction false} RestitutionGardeLoiStock(s: Etat, reps: seq<Repere>, ledger: seq<Mouvement>, tx: nat, n: nat)
    requires LoiStock(s, reps) && n <= |s.produits|
    ensures LoiStock(RestituerJusqua(s, ledger, tx, n), reps)
  {
    if n > 0 {
      RestitutionGardeLoiStock(s, reps, ledger, tx, n - 1);
      var m := RestituerJusqua(s, ledger, tx, n - 1);
      var s' := RestituerUn(m, ledger, tx, n - 1);
      if s' != m { UneLigneDeLedger(m, s', reps, s'.mouvements[|m.mouvements|]); }
    }
  }

  lemma {:induction false} LignesGardentStocksPositifs(s: Etat, marchand: Marchand, tx: nat, ls: seq<Ligne>)
    requires StocksPositifs(s)
    ensures StocksPositifs(AppliquerLignes(s, marchand, tx, ls))
  {
    if ls != [] { LignesGardentStocksPositifs(s, marchand, tx, ls[..|ls| - 1]); }
  }

  lemma {:induction false} RestitutionGardeStocksPositifs(s: Etat, ledger: seq<Mouvement>, tx: nat, n: nat)
    requires StocksPositifs(s) && n <= |s.produits|
    ensures StocksPositifs(RestituerJusqua(s, ledger, tx, n))
  {
    if n > 0 { RestitutionGardeStocksPositifs(s, ledger, tx, n - 1); }
  }

  /** A line whose id designates no product of the merchant leaves every stock as it was, and says so. */
  lemma IdInconnuNeBougeRien(s: Etat, marchand: Marchand, tx: nat, l: Ligne)
    requires LigneUtile(l) && l.id.Some?
    requires !EstA(s.produits, l.id.value, marchand) || !s.produits[l.id.value].value.actif
    ensures var s' := AppliquerLigne(s, marchand, tx, l);
      && s'.produits == s.produits
      && s' == s.(mouvements := s'.mouvements)
      && |s'.mouvements| == |s.mouvements| + 1
      && var m := s'.mouvements[|s.mouvements|];
         m.genre == NonReconcilie && m.produit == l.id && m.retranchee == 0.0 && m.manquant == l.qte
  {
  }

  // ── What a basket takes ─────────────────────────────────────────────────

  /** How much of product p the useful lines of a basket ask for, however they are split and ordered. */
  function Demande(ps: seq<Option<Produit>>, marchand: Marchand, ls: seq<Ligne>, p: nat): real {
    if ls == [] then 0.0
    else
      var a, l := Demande(ps, marchand, ls[..|ls| - 1], p), ls[|ls| - 1];
      if LigneUtile(l) && ChercherProduit(ps, marchand, l) == Some(p) then a + l.qte else a
  }

  lemma {:induction false} RechercheStable(ps: seq<Option<Produit>>, ps': seq<Option<Produit>>, marchand: Marchand, nom: string)
    requires MemesProduits(ps, ps')
    ensures ChercherParNom(ps', marchand, nom) == ChercherParNom(ps, marchand, nom)
  {
    if ps != [] { RechercheStable(ps[..|ps| - 1], ps'[..|ps| - 1], marchand, nom); }
  }

  lemma DesignationStable(ps: seq<Option<Produit>>, ps': seq<Option<Produit>>, marchand: Marchand, l: Ligne)
    requires MemesProduits(ps, ps')
    ensures ChercherProduit(ps', marchand, l) == ChercherProduit(ps, marchand, l)
  {
    RechercheStable(ps, ps', marchand, l.nom);
    if l.id.Some? { assert EstA(ps', l.id.value, marchand) <==> EstA(ps, l.id.value, marchand); }
  }

  /** Taking from what is left of a stock, one line after the other, is taking once. */
  lemma PrendreEnDeux(d: real, q: real, stock: real)
    requires d >= 0.0 && q >= 0.0
    ensures var pris := Min(d, Max(0.0, stock)); pris + Min(q, Max(0.0, stock - pris)) == Min(d + q, Max(0.0, stock))
  {
  }

  ghost predicate PanierPris(s: Etat, s': Etat, marchand: Marchand, tx: nat, ls: seq<Ligne>, p: nat)
    requires p < |s.produits|
  {
    && MemesProduits(s.produits, s'.produits) && Demande(s.produits, marchand, ls, p) >= 0.0
    && var pris := Min(Demande(s.produits, marchand, ls, p), Max(0.0, StockLu(s.produits[p])));
       StockLu(s'.produits[p]) == StockLu(s.produits[p]) - pris && Pris(s'.mouvements, tx, p) == Pris(s.mouvements, tx, p) + pris
  }

  /** What one useful line takes of product p. */
  function Retire(m: Etat, marchand: Marchand, l: Ligne, p: nat): real
    requires p < |m.produits|
  {
    if LigneUtile(l) && ChercherProduit(m.produits, marchand, l) == Some(p) then Min(l.qte, Max(0.0, StockLu(m.produits[p]))) else 0.0
  }

  lemma UneLigneRetire(m: Etat, marchand: Marchand, tx: nat, l: Ligne, p: nat)
    requires p < |m.produits|
    ensures var s' := AppliquerLigne(m, marchand, tx, l);
      && MemesProduits(m.produits, s'.produits)
      && StockLu(s'.produits[p]) == StockLu(m.produits[p]) - Retire(m, marchand, l, p)
      && Pris(s'.mouvements, tx, p) == Pris(m.mouvements, tx, p) + Retire(m, marchand, l, p)
  {
    if LigneUtile(l) {
      LedgerAjout(m.mouvements, AppliquerLigne(m, marchand, tx, l).mouvements[|m.mouvements|], tx, p);
    }
  }

  lemma ProduitsSuivent(a: seq<Option<Produit>>, b: seq<Option<Produit>>, c: seq<Option<Produit>>)
    requires MemesProduits(a, b) && MemesProduits(b, c)
    ensures MemesProduits(a, c)
  {
  }

  lemma UneLignePrise(s: Etat, m: Etat, marchand: Marchand, tx: nat, ls: seq<Ligne>, p: nat)
    requires p < |s.produits| && ls != [] && PanierPris(s, m, marchand, tx, ls[..|ls| - 1], p)
    ensures PanierPris(s, AppliquerLigne(m, marchand, tx, ls[|ls| - 1]), marchand, tx, ls, p)
  {
    var l := ls[|ls| - 1];
    var s' := AppliquerLigne(m, marchand, tx, l);
    UneLigneRetire(m, marchand, tx, l, p);
    ProduitsSuivent(s.produits, m.produits, s'.produits);
    DesignationStable(s.produits, m.produits, marchand, l);
    PriseDePlus(s, m, s', marchand, tx, ls, p);
  }

  lemma PriseDePlus(s: Etat, m: Etat, s': Etat, marchand: Marchand, tx: nat, ls: seq<Ligne>, p: nat)
    requires p < |s.produits| && ls != [] && PanierPris(s, m, marchand, tx, ls[..|ls| - 1], p) && MemesProduits(s.produits, s'.produits)
    requires ChercherProduit(m.produits, marchand, ls[|ls| - 1]) == ChercherProduit(s.produits, marchand, ls[|ls| - 1])
    requires StockLu(s'.produits[p]) == StockLu(m.produits[p]) - Retire(m, marchand, ls[|ls| - 1], p)
    requires Pris(s'.mouvements, tx, p) == Pris(m.mouvements, tx, p) + Retire(m, marchand, ls[|ls| - 1], p)
    ensures PanierPris(s, s', marchand, tx, ls, p)
  {
    var l := ls[|ls| - 1];
    if LigneUtile(l) { PrendreEnDeux(Demande(s.produits, marchand, ls[..|ls| - 1], p), l.qte, StockLu(s.produits[p])); }
  }

  /**
   What a basket takes of a product is the whole demand or, failing that, all there is — with the
   product on any number of lines, by id or by name, in any order.
   */
  lemma {:induction false} PanierExact(s: Etat, marchand: Marchand, tx: nat, ls: seq<Ligne>, p: nat)
    requires p < |s.produits|
    ensures PanierPris(s, AppliquerLignes(s, marchand, tx, ls), marchand, tx, ls, p)
  {
    if ls != [] {
      PanierExact(s, marchand, tx, ls[..|ls| - 1], p);
      UneLignePrise(s, AppliquerLignes(s, marchand, tx, ls[..|ls| - 1]), marchand, tx, ls, p);
    }
  }

  // ── What a basket leaves in the ledger ──────────────────────────────────

  function Utiles(ls: seq<Ligne>): seq<Ligne> {
    if ls == [] then []
    else if LigneUtile(ls[|ls| - 1]) then Utiles(ls[..|ls| - 1]) + [ls[|ls| - 1]]
    else Utiles(ls[..|ls| - 1])
  }

  /** The ledger row of one line: what it asked, split between taken and missing, and how the line was reconciled. */
  ghost predicate Rend(ps: seq<Option<Produit>>, marchand: Marchand, tx: nat, l: Ligne, m: Mouvement) {
    var p := ChercherProduit(ps, marchand, l);
    && m.transaction == tx && m.marchand == marchand && m.nom == l.nom
    && m.demandee == l.qte == m.retranchee + m.manquant && 0.0 <= m.retranchee <= l.qte
    && (if p.Some? then m.produit == p && m.genre == SortieVente
        else m.produit == l.id && m.retranchee == 0.0 && m.genre == (if l.id.Some? then NonReconcilie else SansCatalogue))
  }

  lemma UneLigneRendue(s: Etat, ps: seq<Option<Produit>>, marchand: Marchand, tx: nat, l: Ligne)
    requires LigneUtile(l) && MemesProduits(ps, s.produits)
    ensures var ms := AppliquerLigne(s, marchand, tx, l).mouvements;
      |ms| == |s.mouvements| + 1 && ms[..|s.mouvements|] == s.mouvements && Rend(ps, marchand, tx, l, ms[|s.mouvements|])
  {
    DesignationStable(ps, s.produits, marchand, l);
    if l.id.Some? && ChercherProduit(s.produits, marchand, l).None? { IdInconnuNeBougeRien(s, marchand, tx, l); }
  }

  ghost predicate Traces(ps: seq<Option<Produit>>, marchand: Marchand, tx: nat, avant: seq<Mouvement>, ls: seq<Ligne>, ms: seq<Mouvement>) {
    && |ms| == |avant| + |ls| && ms[..|avant|] == avant
    && forall k :: 0 <= k < |ls| ==> Rend(ps, marchand, tx, ls[k], ms[|avant| + k])
  }

  lemma TracesSuite(
    ps: seq<Option<Produit>>, marchand: Marchand, tx: nat, avant: seq<Mouvement>, ls: seq<Ligne>, ms: seq<Mouvement>, l: Ligne, m: Mouvement)
    requires Traces(ps, marchand, tx, avant, ls, ms) && Rend(ps, marchand, tx, l, m)
    ensures Traces(ps, marchand, tx, avant, ls + [l], ms + [m])
  {
  }

  /**
   A basket leaves one ledger row for each of its useful lines, in their order, each for the product the catalogue
   gave the line before the sale: nothing sold goes unwritten, found or not.
   */
  lemma {:induction false} PanierTrace(s: Etat, marchand: Marchand, tx: nat, ls: seq<Ligne>)
    ensures Traces(s.produits, marchand, tx, s.mouvements, Utiles(ls), AppliquerLignes(s, marchand, tx, ls).mouvements)
  {
    if ls != [] {
      var a, l := ls[..|ls| - 1], ls[|ls| - 1];
      var m := AppliquerLignes(s, marchand, tx, a);
      PanierTrace(s, marchand, tx, a);
      if LigneUtile(l) {
        var ms := AppliquerLigne(m, marchand, tx, l).mouvements;
        UneLigneRendue(m, s.produits, marchand, tx, l);
        assert ms == m.mouvements + [ms[|m.mouvements|]];
        TracesSuite(s.produits, marchand, tx, s.mouvements, Utiles(a), m.mouvements, l, ms[|m.mouvements|]);
      }
    }
  }

  // ── A cancellation undoes a sale exactly once ───────────────────────────

  /**
   What a cancellation may have given back of product p for sale tx: nothing, or all of it. A cancelled
   sale still holds some of p only if the row of p is gone.
   */
  ghost predicate RestitutionJuste(s: Etat, tx: nat, p: nat)
    requires tx < |s.ecritures|
  {
    && Pris(s.mouvements, tx, p) >= 0.0
    && (Rendu(s.mouvements, tx, p) == 0.0 || Rendu(s.mouvements, tx, p) == Pris(s.mouvements, tx, p))
    && (s.ecritures[tx].statut == Annulee && !Efface(s.produits, p) ==> Rendu(s.mouvements, tx, p) == Pris(s.mouvements, tx, p))
    && (p >= |s.produits| ==> Pris(s.mouvements, tx, p) == 0.0)
  }

  ghost predicate LoiRestitution(s: Etat) {
    && (forall k :: 0 <= k < |s.mouvements| ==> s.mouvements[k].transaction < |s.ecritures|)
    && (forall tx: nat, p: nat :: tx < |s.ecritures| ==> RestitutionJuste(s, tx, p))
  }

  /** A sale that has no row yet has taken nothing and given nothing back. */
  lemma VenteSansLigne(s: Etat, tx: nat, p: nat)
    requires forall k :: 0 <= k < |s.mouvements| ==> s.mouvements[k].transaction < tx
    ensures Net(s.mouvements, tx, p) == Pris(s.mouvements, tx, p) == Rendu(s.mouvements, tx, p) == 0.0
  {
    SommeNulle(PoidsNet(tx, p), s.mouvements);
    SommeNulle(PoidsPris(tx, p), s.mouvements);
    SommeNulle(PoidsRendu(tx, p), s.mouvements);
  }

  /** What lines of sale tx may do, from s to s', to the account of sale t for product p and to p's stock. */
  ghost predicate EffetVente(s: Etat, s': Etat, tx: nat, t: nat, p: nat) {
    && MemesProduits(s.produits, s'.produits)
    && s' == s.(produits := s'.produits, mouvements := s'.mouvements)
    && s.mouvements <= s'.mouvements
    && (forall k :: |s.mouvements| <= k < |s'.mouvements| ==> s'.mouvements[k].transaction == tx)
    && Rendu(s'.mouvements, t, p) == Rendu(s.mouvements, t, p)
    && (t != tx ==> Pris(s'.mouvements, t, p) == Pris(s.mouvements, t, p))
    && Pris(s'.mouvements, tx, p) >= Pris(s.mouvements, tx, p)
    && (p >= |s.produits| ==> Pris(s'.mouvements, tx, p) == Pris(s.mouvements, tx, p))
    && (p < |s.produits| ==>
          StockLu(s'.produits[p]) == StockLu(s.produits[p]) - (Pris(s'.mouvements, tx, p) - Pris(s.mouvements, tx, p)))
  }

  lemma EffetDUneLigne(s: Etat, marchand: Marchand, tx: nat, l: Ligne, t: nat, p: nat)
    ensures EffetVente(s, AppliquerLigne(s, marchand, tx, l), tx, t, p)
  {
    if LigneUtile(l) {
      var row := AppliquerLigne(s, marchand, tx, l).mouvements[|s.mouvements|];
      RangDUneLigne(s, marchand, tx, l);
      LedgerAjout(s.mouvements, row, t, p);
      LedgerAjout(s.mouvements, row, tx, p);
      if p < |s.produits| { UneLigneRetire(s, marchand, tx, l, p); }
    }
  }

  /** One line adds one row of its sale, which takes nothing from a product that is not there. */
  lemma RangDUneLigne(s: Etat, marchand: Marchand, tx: nat, l: Ligne)
    requires LigneUtile(l)
    ensures var s' := AppliquerLigne(s, marchand, tx, l);
      && |s'.mouvements| == |s.mouvements| + 1
      && s' == s.(produits := s'.produits, mouvements := s.mouvements + [s'.mouvements[|s.mouvements|]])
      && var row := s'.mouvements[|s.mouvements|];
         row.transaction == tx && row.genre != Annulation && row.retranchee >= 0.0
         && (row.produit.Some? && row.produit.value >= |s.produits| ==> row.retranchee == 0.0)
  {
  }

  /** What the lines of sale tx do to every sale's account and to every stock. */
  lemma {:induction false} EffetDesLignes(s: Etat, marchand: Marchand, tx: nat, ls: seq<Ligne>, t: nat, p: nat)
    ensures EffetVente(s, AppliquerLignes(s, marchand, tx, ls), tx, t, p)
  {
    if ls != [] {
      var m := AppliquerLignes(s, marchand, tx, ls[..|ls| - 1]);
      EffetDesLignes(s, marchand, tx, ls[..|ls| - 1], t, p);
      EffetDUneLigne(m, marchand, tx, ls[|ls| - 1], t, p);
      EffetsBout(s, m, AppliquerLignes(s, marchand, tx, ls), tx, t, p);
    }
  }

  lemma EffetsBout(s: Etat, m: Etat, s': Etat, tx: nat, t: nat, p: nat)
    requires EffetVente(s, m, tx, t, p) && EffetVente(m, s', tx, t, p)
    ensures EffetVente(s, s', tx, t, p)
  {
  }

  lemma LignesGardentRestitution(s: Etat, marchand: Marchand, tx: nat, ls: seq<Ligne>)
    requires LoiRestitution(s) && tx < |s.ecritures| && s.ecritures[tx].statut != Annulee
    requires forall k :: 0 <= k < |s.mouvements| ==> s.mouvements[k].transaction < tx
    ensures LoiRestitution(AppliquerLignes(s, marchand, tx, ls))
  {
    var s' := AppliquerLignes(s, marchand, tx, ls);
    EffetDesLignes(s, marchand, tx, ls, 0, 0);
    forall t: nat, p: nat | t < |s'.ecritures| ensures RestitutionJuste(s', t, p) {
      assert RestitutionJuste(s, t, p);
      EffetDesLignes(s, marchand, tx, ls, t, p);
      VenteSansLigne(s, tx, p);
    }
  }

  lemma {:induction false} SansGroupeNetNul(ms: seq<Mouvement>, tx: nat, p: nat)
    requires Groupe(ms, tx, p).None?
    ensures Net(ms, tx, p) == 0.0
  {
    if ms != [] { SansGroupeNetNul(ms[..|ms| - 1], tx, p); }
  }

  /** What a restitution gives back of product p: all the sale still holds, unless the row of p is gone. */
  function Donne(s: Etat, ledger: seq<Mouvement>, tx: nat, p: nat): real {
    if Existe(s.produits, p) then Net(ledger, tx, p) else 0.0
  }

  /** Product q has been given `net` for sale tx; seen from product p and sale t. */
  ghost predicate EffetRetour(s: Etat, s': Etat, tx: nat, q: nat, net: real, t: nat, p: nat) {
    && s' == s.(produits := s'.produits, mouvements := s'.mouvements) && |s'.produits| == |s.produits|
    && s.mouvements <= s'.mouvements
    && (forall k :: |s.mouvements| <= k < |s'.mouvements| ==> s'.mouvements[k].transaction == tx)
    && Pris(s'.mouvements, t, p) == Pris(s.mouvements, t, p)
    && Rendu(s'.mouvements, t, p) == Rendu(s.mouvements, t, p) + (if t == tx && p == q then net else 0.0)
    && (p < |s.produits| ==> StockLu(s'.produits[p]) == StockLu(s.produits[p]) + (if p == q then net else 0.0))
  }

  lemma EffetDUnRetour(s: Etat, ledger: seq<Mouvement>, tx: nat, q: nat, t: nat, p: nat)
    requires Net(ledger, tx, q) >= 0.0
    ensures EffetRetour(s, RestituerUn(s, ledger, tx, q), tx, q, Donne(s, ledger, tx, q), t, p)
  {
    if Groupe(ledger, tx, q).None? { SansGroupeNetNul(ledger, tx, q); }
    var s' := RestituerUn(s, ledger, tx, q);
    if s' != s { LedgerAjout(s.mouvements, s'.mouvements[|s.mouvements|], t, p); }
  }

  /** The first n products have been given what sale tx still held of them, those that are still there. */
  ghost predicate EffetBoucle(s: Etat, s': Etat, tx: nat, n: nat, t: nat, p: nat) {
    && s' == s.(produits := s'.produits, mouvements := s'.mouvements) && |s'.produits| == |s.produits|
    && s.mouvements <= s'.mouvements
    && (forall k :: |s.mouvements| <= k < |s'.mouvements| ==> s'.mouvements[k].transaction == tx)
    && Pris(s'.mouvements, t, p) == Pris(s.mouvements, t, p)
    && Rendu(s'.mouvements, t, p) == Rendu(s.mouvements, t, p) + (if t == tx && p < n then Donne(s, s.mouvements, tx, p) else 0.0)
    && (p < |s.produits| ==>
          StockLu(s'.produits[p]) == StockLu(s.produits[p]) + (if p < n then Donne(s, s.mouvements, tx, p) else 0.0))
  }

  lemma BoucleSuite(s: Etat, m: Etat, s': Etat, tx: nat, n: nat, t: nat, p: nat)
    requires EffetBoucle(s, m, tx, n, t, p) && EffetRetour(m, s', tx, n, Donne(s, s.mouvements, tx, n), t, p)
    ensures EffetBoucle(s, s', tx, n + 1, t, p)
  {
  }

  /** The sale holds no less than nothing of any product. */
  ghost predicate RienEnTrop(ms: seq<Mouvement>, tx: nat) { forall q: nat :: Net(ms, tx, q) >= 0.0 }

  lemma BouclePas(s: Etat, m: Etat, tx: nat, n: nat, t: nat, p: nat)
    requires MemesProduits(s.produits, m.produits) && EffetBoucle(s, m, tx, n, t, p) && RienEnTrop(s.mouvements, tx)
    ensures EffetBoucle(s, RestituerUn(m, s.mouvements, tx, n), tx, n + 1, t, p)
  {
    assert Existe(m.produits, n) <==> Existe(s.produits, n);
    EffetDUnRetour(m, s.mouvements, tx, n, t, p);
    BoucleSuite(s, m, RestituerUn(m, s.mouvements, tx, n), tx, n, t, p);
  }

  lemma {:induction false} BoucleTient(s: Etat, tx: nat, n: nat, t: nat, p: nat)
    requires n <= |s.produits|
    requires RienEnTrop(s.mouvements, tx)
    ensures EffetBoucle(s, RestituerJusqua(s, s.mouvements, tx, n), tx, n, t, p)
  {
    if n > 0 {
      var m := RestituerJusqua(s, s.mouvements, tx, n - 1);
      assert RestituerJusqua(s, s.mouvements, tx, n) == RestituerUn(m, s.mouvements, tx, n - 1);
      BoucleTient(s, tx, n - 1, t, p);
      BouclePas(s, m, tx, n - 1, t, p);
    }
  }

  /** What the whole restitution does to the account of sale t for product p, and to p. */
  lemma EffetRestitution(s: Etat, tx: nat, t: nat, p: nat)
    requires RienEnTrop(s.mouvements, tx)
    ensures var s' := RestituerStock(s, tx);
      && s' == s.(produits := s'.produits, mouvements := s'.mouvements) && MemesProduits(s.produits, s'.produits)
      && s.mouvements <= s'.mouvements
      && (forall k :: |s.mouvements| <= k < |s'.mouvements| ==> s'.mouvements[k].transaction == tx)
      && Pris(s'.mouvements, t, p) == Pris(s.mouvements, t, p)
      && Rendu(s'.mouvements, t, p) == Rendu(s.mouvements, t, p) + (if t == tx then Donne(s, s.mouvements, tx, p) else 0.0)
      && (p < |s.produits| ==> StockLu(s'.produits[p]) == StockLu(s.produits[p]) + Donne(s, s.mouvements, tx, p))
  {
    BoucleTient(s, tx, |s.produits|, t, p);
  }

  lemma NetsPositifs(s: Etat, tx: nat)
    requires LoiRestitution(s) && tx < |s.ecritures|
    ensures RienEnTrop(s.mouvements, tx)
  {
    forall q: nat ensures Net(s.mouvements, tx, q) >= 0.0 {
      assert RestitutionJuste(s, tx, q);
      NetEstPrisMoinsRendu(s.mouvements, tx, q);
    }
  }

  /**
   Restituting a sale gives each product that is still there exactly what that sale took and had not been
   given back, and no other product or sale anything. The sale then holds nothing of p if and only if
   p's row was there or the sale held nothing of it already.
   */
  lemma RestitutionExacte(s: Etat, tx: nat, p: nat)
    requires LoiRestitution(s) && tx < |s.ecritures|
    ensures var s' := RestituerStock(s, tx);
      && (Net(s'.mouvements, tx, p) == 0.0 <==> Existe(s.produits, p) || Net(s.mouvements, tx, p) == 0.0)
      && Pris(s'.mouvements, tx, p) == Pris(s.mouvements, tx, p)
      && Net(s.mouvements, tx, p) == Pris(s.mouvements, tx, p) - Rendu(s.mouvements, tx, p)
      && (if Existe(s.produits, p)
          then Existe(s'.produits, p) && Rendu(s'.mouvements, tx, p) == Pris(s.mouvements, tx, p)
               && StockLu(s'.produits[p]) - StockLu(s.produits[p]) == Net(s.mouvements, tx, p)
          else !Existe(s'.produits, p) && Rendu(s'.mouvements, tx, p) == Rendu(s.mouvements, tx, p)
               && Net(s'.mouvements, tx, p) == Net(s.mouvements, tx, p))
      && (Rendu(s.mouvements, tx, p) == 0.0 || Rendu(s.mouvements, tx, p) == Pris(s.mouvements, tx, p))
      && (forall t :: t != tx ==>
            (Pris(s'.mouvements, t, p) == Pris(s.mouvements, t, p) && Rendu(s'.mouvements, t, p) == Rendu(s.mouvements, t, p)))
  {
    var s' := RestituerStock(s, tx);
    NetsPositifs(s, tx);
    assert RestitutionJuste(s, tx, p);
    EffetRestitution(s, tx, tx, p);
    NetEstPrisMoinsRendu(s.mouvements, tx, p);
    NetEstPrisMoinsRendu(s'.mouvements, tx, p);
    forall t | t != tx
      ensures Pris(s'.mouvements, t, p) == Pris(s.mouvements, t, p) && Rendu(s'.mouvements, t, p) == Rendu(s.mouvements, t, p)
    {
      EffetRestitution(s, tx, t, p);
    }
  }

  /** Whatever the status it leaves on the line, a restitution keeps every sale's account just. */
  lemma RestitutionGardeRestitution(s: Etat, tx: nat, statut: Statut)
    requires LoiRestitution(s) && tx < |s.ecritures|
    ensures var s' := RestituerStock(s, tx);
      LoiRestitution(s'.(ecritures := s'.ecritures[tx := s'.ecritures[tx].(statut := statut)]))
  {
    var m := RestituerStock(s, tx);
    NetsPositifs(s, tx);
    EffetRestitution(s, tx, 0, 0);
    var s' := m.(ecritures := m.ecritures[tx := m.ecritures[tx].(statut := statut)]);
    forall t: nat, p: nat | t < |s'.ecritures| ensures RestitutionJuste(s', t, p) {
      assert RestitutionJuste(s, t, p);
      RestitutionExacte(s, tx, p);
    }
  }

  lemma {:induction false} RestitutionSansNet(s: Etat, ledger: seq<Mouvement>, tx: nat, n: nat)
    requires n <= |s.produits|
    requires forall p: nat :: p < n && Existe(s.produits, p) ==> Net(ledger, tx, p) <= 0.0
    ensures RestituerJusqua(s, ledger, tx, n) == s
  {
    if n > 0 { RestitutionSansNet(s, ledger, tx, n - 1); }
  }

  /** However many times it runs, a restitution has an effect once: the second changes nothing at all. */
  lemma RestitutionIdempotente(s: Etat, tx: nat)
    requires LoiRestitution(s) && tx < |s.ecritures|
    ensures RestituerStock(RestituerStock(s, tx), tx) == RestituerStock(s, tx)
  {
    var s' := RestituerStock(s, tx);
    forall p: nat | Existe(s'.produits, p) ensures Net(s'.mouvements, tx, p) <= 0.0 { RestitutionExacte(s, tx, p); }
    RestitutionSansNet(s', s'.mouvements, tx, |s'.produits|);
  }

  /** A sale cancelled at once leaves every stock as it found it, whatever its basket. */
  lemma AnnulationImmediate(s: Etat, marchand: Marchand, tx: nat, ls: seq<Ligne>, p: nat)
    requires LoiRestitution(s) && tx < |s.ecritures| && s.ecritures[tx].statut != Annulee
    requires forall k :: 0 <= k < |s.mouvements| ==> s.mouvements[k].transaction < tx
    requires p < |s.produits|
    ensures var s' := AppliquerLignes(s, marchand, tx, ls);
      |RestituerStock(s', tx).produits| == |s.produits| == |s'.produits|
      && StockLu(RestituerStock(s', tx).produits[p]) == StockLu(s.produits[p])
  {
    var s' := AppliquerLignes(s, marchand, tx, ls);
    LignesGardentRestitution(s, marchand, tx, ls);
    EffetDesLignes(s, marchand, tx, ls, tx, p);
    VenteSansLigne(s, tx, p);
    RestitutionExacte(s', tx, p);
  }
}
