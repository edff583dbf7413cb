/**
 A sale, from what its body says to the tables it leaves. The lines are those of the request and the products those
 of the catalogue: what a line asks and whom it designates are said here again, from the columns.
 */
module VenteLois {
  import opened Commun
  import opened Tables
  import opened Stock
  import opened StockLois
  import opened Caisse
  import ConstatLois

  // ── What a line asks, and of which product ──────────────────────────────

  /** Two letters of one name, the case of the ASCII ones aside. */
  predicate MemeLettre(a: char, b: char) {
    a == b || ('A' <= a <= 'Z' && b as int == a as int + 32) || ('A' <= b <= 'Z' && a as int == b as int + 32)
  }

  predicate MemeNom(a: string, b: string) { |a| == |b| && forall i :: 0 <= i < |a| ==> MemeLettre(a[i], b[i]) }

  lemma MemeNomMinuscules(a: string, b: string)
    ensures MemeNom(a, b) <==> Minuscules(a) == Minuscules(b)
  {
    if |a| == |b| {
      forall i | 0 <= i < |a| ensures MemeLettre(a[i], b[i]) <==> Minuscules(a)[i] == Minuscules(b)[i] {}
      if MemeNom(a, b) { assert Minuscules(a) == Minuscules(b); }
    } else {
      assert |Minuscules(a)| != |Minuscules(b)|;
    }
  }

  predicate EnVente(p: Option<Produit>, m: Marchand) { p.Some? && p.value.marchand == m && p.value.actif }

  /** The line designates product p: by its id when it has one, otherwise as the first of the merchant's products of that name. */
  predicate Vise(ps: seq<Option<Produit>>, m: Marchand, l: Ligne, p: nat) {
    && p < |ps| && EnVente(ps[p], m)
    && if l.id.Some? then l.id.value == p
       else MemeNom(ps[p].value.nom, l.nom) && forall q :: 0 <= q < p && EnVente(ps[q], m) ==> !MemeNom(ps[q].value.nom, l.nom)
  }

  lemma ViseEstCherche(ps: seq<Option<Produit>>, m: Marchand, l: Ligne, p: nat)
    ensures Vise(ps, m, l, p) <==> ChercherProduit(ps, m, l) == Some(p)
  {
    if l.id.None? {
      forall q | 0 <= q < |ps| && EnVente(ps[q], m) ensures MemeNom(ps[q].value.nom, l.nom) <==> DesigneParNom(ps[q], m, l.nom) {
        MemeNomMinuscules(ps[q].value.nom, l.nom);
      }
    }
  }

  /** A line that counts: it has a name and a positive quantity. */
  predicate Nommee(l: Ligne) { l.nom != "" && l.qte > 0.0 }

  /** What the lines ask of product p. */
  function QuantiteDemandee(ps: seq<Option<Produit>>, m: Marchand, ls: seq<Ligne>, p: nat): real {
    if ls == [] then 0.0
    else
      var l := ls[|ls| - 1];
      QuantiteDemandee(ps, m, ls[..|ls| - 1], p) + if Nommee(l) && Vise(ps, m, l, p) then l.qte else 0.0
  }

  lemma {:induction false} DemandeEstQuantite(ps: seq<Option<Produit>>, m: Marchand, ls: seq<Ligne>, p: nat)
    ensures Demande(ps, m, ls, p) == QuantiteDemandee(ps, m, ls, p)
  {
    if ls != [] {
      DemandeEstQuantite(ps, m, ls[..|ls| - 1], p);
      ViseEstCherche(ps, m, ls[|ls| - 1], p);
    }
  }

  // ── What a list of lines does ───────────────────────────────────────────

  predicate ViseeParUne(ps: seq<Option<Produit>>, m: Marchand, ls: seq<Ligne>, p: nat) {
    exists k :: 0 <= k < |ls| && Nommee(ls[k]) && Vise(ps, m, ls[k], p)
  }

  /** What the lines leave of the stock of product p: it gives all that is asked of it or all it has. */
  function Reste(ps: seq<Option<Produit>>, m: Marchand, ls: seq<Ligne>, p: nat): real
    requires p < |ps|
  {
    StockLu(ps[p]) - Min(QuantiteDemandee(ps, m, ls, p), Max(0.0, StockLu(ps[p])))
  }

  ghost predicate StockApres(ps: seq<Option<Produit>>, ps': seq<Option<Produit>>, m: Marchand, ls: seq<Ligne>, p: nat)
    requires p < |ps| == |ps'|
  {
    if ViseeParUne(ps, m, ls, p) then ps[p].Some? && ps'[p] == Some(ps[p].value.(stock := Some(Reste(ps, m, ls, p))))
    else ps'[p] == ps[p]
  }

  /** The products that no line designates keep their row as it was. */
  ghost predicate StocksApres(ps: seq<Option<Produit>>, ps': seq<Option<Produit>>, m: Marchand, ls: seq<Ligne>) {
    |ps'| == |ps| && forall p: nat :: p < |ps| ==> StockApres(ps, ps', m, ls, p)
  }

  /**
   The row one line leaves: what it asked, split between taken and missing, for the product it designates, whose
   stock is what the lines before it left.
   */
  ghost predicate RangDe(ps: seq<Option<Produit>>, m: Marchand, tx: nat, avant: seq<Ligne>, l: Ligne, r: Mouvement) {
    && r.transaction == tx && r.marchand == m && r.nom == l.nom && r.demandee == l.qte == r.retranchee + r.manquant
    && (forall p: nat :: Vise(ps, m, l, p) ==>
          && r.produit == Some(p) && r.genre == SortieVente && r.unite == ps[p].value.unite
          && r.stockAvant == Reste(ps, m, avant, p) && r.retranchee == Min(l.qte, Max(0.0, r.stockAvant)))
    && ((forall p: nat :: !Vise(ps, m, l, p)) ==>
          && r.produit == l.id && r.genre == (if l.id.Some? then NonReconcilie else SansCatalogue)
          && r.retranchee == 0.0 && r.stockAvant == 0.0 && r.unite == None)
  }

  /** One new row for each line that counts, in their order. */
  ghost predicate RangsApres(ps: seq<Option<Produit>>, ms: seq<Mouvement>, ms': seq<Mouvement>, m: Marchand, tx: nat, ls: seq<Ligne>)
    decreases |ls|
  {
    if ls == [] then ms' == ms
    else if !Nommee(ls[|ls| - 1]) then RangsApres(ps, ms, ms', m, tx, ls[..|ls| - 1])
    else ms' != [] && RangDe(ps, m, tx, ls[..|ls| - 1], ls[|ls| - 1], ms'[|ms'| - 1]) && RangsApres(ps, ms, ms'[..|ms'| - 1], m, tx, ls[..|ls| - 1])
  }

  lemma UneLigneRang(s: Etat, ps: seq<Option<Produit>>, m: Marchand, tx: nat, avant: seq<Ligne>, l: Ligne)
    requires Nommee(l) && MemesProduits(ps, s.produits)
    requires forall p: nat :: p < |ps| ==> StockLu(s.produits[p]) == Reste(ps, m, avant, p)
    ensures var ms := AppliquerLigne(s, m, tx, l).mouvements;
      |ms| == |s.mouvements| + 1 && ms[..|s.mouvements|] == s.mouvements && RangDe(ps, m, tx, avant, l, ms[|s.mouvements|])
  {
    DesignationStable(ps, s.produits, m, l);
    UneLigneRendue(s, ps, m, tx, l);
    var r := AppliquerLigne(s, m, tx, l).mouvements[|s.mouvements|];
    var c := ChercherProduit(ps, m, l);
    if c.Some? { ViseEstCherche(ps, m, l, c.value); assert r.unite == s.produits[c.value].value.unite; }
    forall p: nat | Vise(ps, m, l, p) ensures c == Some(p) { ViseEstCherche(ps, m, l, p); }
  }

  lemma LignesReste(s: Etat, m: Marchand, tx: nat, ls: seq<Ligne>, p: nat)
    requires p < |s.produits|
    ensures var ps' := AppliquerLignes(s, m, tx, ls).produits;
      MemesProduits(s.produits, ps') && StockLu(ps'[p]) == Reste(s.produits, m, ls, p)
  {
    PanierExact(s, m, tx, ls, p);
    DemandeEstQuantite(s.produits, m, ls, p);
  }

  lemma {:induction false} LignesRangs(s: Etat, m: Marchand, tx: nat, ls: seq<Ligne>)
    ensures RangsApres(s.produits, s.mouvements, AppliquerLignes(s, m, tx, ls).mouvements, m, tx, ls)
  {
    if ls != [] {
      var a, l := ls[..|ls| - 1], ls[|ls| - 1];
      LignesRangs(s, m, tx, a);
      if Nommee(l) {
        var mi := AppliquerLignes(s, m, tx, a);
        forall p: nat | p < |s.produits| ensures StockLu(mi.produits[p]) == Reste(s.produits, m, a, p) { LignesReste(s, m, tx, a, p); }
        UneLigneRang(mi, s.produits, m, tx, a, l);
      }
    }
  }

  lemma UneLigneAilleurs(s: Etat, ps: seq<Option<Produit>>, m: Marchand, tx: nat, l: Ligne, p: nat)
    requires MemesProduits(ps, s.produits) && p < |ps|
    ensures var ps' := AppliquerLigne(s, m, tx, l).produits;
      |ps'| == |ps| && if Nommee(l) && Vise(ps, m, l, p) then ps'[p].Some? && ps'[p].value.stock.Some? else ps'[p] == s.produits[p]
  {
    DesignationStable(ps, s.produits, m, l);
    ViseEstCherche(ps, m, l, p);
  }

  lemma {:induction false} LignesAilleurs(s: Etat, m: Marchand, tx: nat, ls: seq<Ligne>, p: nat)
    requires p < |s.produits|
    ensures var ps' := AppliquerLignes(s, m, tx, ls).produits;
      |ps'| == |s.produits|
      && if ViseeParUne(s.produits, m, ls, p) then ps'[p].Some? && ps'[p].value.stock.Some? else ps'[p] == s.produits[p]
  {
    if ls != [] {
      var a, l := ls[..|ls| - 1], ls[|ls| - 1];
      LignesAilleurs(s, m, tx, a, p);
      UneLigneAilleurs(AppliquerLignes(s, m, tx, a), s.produits, m, tx, l, p);
      assert ls == a + [l];
      assert ViseeParUne(s.produits, m, ls, p) <==> ViseeParUne(s.produits, m, a, p) || (Nommee(l) && Vise(s.produits, m, l, p)) by {
        if ViseeParUne(s.produits, m, a, p) {
          var k :| 0 <= k < |a| && Nommee(a[k]) && Vise(s.produits, m, a[k], p);
          assert ls[k] == a[k];
        }
        if Nommee(l) && Vise(s.produits, m, l, p) { assert ls[|a|] == l; }
      }
    }
  }

  lemma LignesStocks(s: Etat, m: Marchand, tx: nat, ls: seq<Ligne>)
    ensures StocksApres(s.produits, AppliquerLignes(s, m, tx, ls).produits, m, ls)
  {
    var ps' := AppliquerLignes(s, m, tx, ls).produits;
    forall p: nat | p < |s.produits| ensures StockApres(s.produits, ps', m, ls, p) {
      LignesAilleurs(s, m, tx, ls, p);
      LignesReste(s, m, tx, ls, p);
      StockEcrit(s.produits, ps', m, ls, p);
    }
  }

  lemma StockEcrit(ps: seq<Option<Produit>>, ps': seq<Option<Produit>>, m: Marchand, ls: seq<Ligne>, p: nat)
    requires MemesProduits(ps, ps') && p < |ps| && StockLu(ps'[p]) == Reste(ps, m, ls, p)
    requires if ViseeParUne(ps, m, ls, p) then ps'[p].Some? && ps'[p].value.stock.Some? else ps'[p] == ps[p]
    ensures StockApres(ps, ps', m, ls, p)
  {
  }

  // ── The sale ────────────────────────────────────────────────────────────

  /** The key is free, the amount a positive number, the merchant's day not closed. */
  predicate Recevable(s: Etat, m: Marchand, cle: Option<string>, montant: Saisie, t: int) {
    && (cle.Some? ==> forall i :: 0 <= i < |s.ecritures| ==> s.ecritures[i].cle != cle)
    && montant.Nombre? && montant.n > 0.0
    && ((m, Jour(t)) in s.sessions ==> s.sessions[(m, Jour(t))].ouvert)
  }

  /** The instant a line is booked at: the one claimed, from fourteen days before to ten minutes after, or now. */
  predicate Datee(e: Ecriture, date: Option<int>, t: int) {
    if date.Some? && t - 1_209_600_000 <= date.value <= t + 600_000 then e.creeLe == date.value else e.creeLe == t
  }

  /** The day is open afterwards, as it was or as a new row without a declared float; no other day moved. */
  ghost predicate JourneeOuverte(s: Etat, s': Etat, cle: CleSession) {
    s'.sessions == if cle in s.sessions then s.sessions else s.sessions[cle := Session(0.0, None, true, None, 0.0, None, None)]
  }

  /** Nothing but the till's lines, the products, their ledger and the day's row. */
  ghost predicate HorsVente(s: Etat, s': Etat) {
    && s'.clesStock == s.clesStock && s'.journal == s.journal && s'.credits == s.credits
    && s'.clients == s.clients && s'.audits == s.audits
  }

  /** One more line in the till. */
  ghost predicate UneLigneDePlus(s: Etat, s': Etat, m: Marchand, nature: Nature, montant: real, date: Option<int>, cle: Option<string>, t: int) {
    && |s'.ecritures| == |s.ecritures| + 1 && s'.ecritures[..|s.ecritures|] == s.ecritures
    && var e := s'.ecritures[|s.ecritures|];
       e == Ecriture(m, nature, montant, Validee, e.creeLe, cle) && Datee(e, date, t)
  }

  ghost predicate Bouge(s: Etat, s': Etat, m: Marchand, tx: nat, ls: seq<Ligne>) {
    StocksApres(s.produits, s'.produits, m, ls) && RangsApres(s.produits, s.mouvements, s'.mouvements, m, tx, ls)
  }

  /**
   A sale is recorded if and only if it is receivable. Every line of its basket then takes from the product it
   designates, and leaves its row; a sale without a basket does so for the one article it names, a quantity of 0
   read as 1; one that names nothing moves no stock.
   */
  lemma VenteExacte(s: Etat, m: Marchand, d: DemandeVente, t: int)
    ensures var (s', rep) := EnregistrerVente(s, m, d, t);
      && ((rep.Ok? && rep.valeur.Some?) <==> Recevable(s, m, d.cle, d.montant, t))
      && (Recevable(s, m, d.cle, d.montant, t) ==>
            && rep.valeur == Some(|s.ecritures|)
            && UneLigneDePlus(s, s', m, Vente, d.montant.n, d.date, d.cle, t)
            && JourneeOuverte(s, s', (m, Jour(t))) && HorsVente(s, s')
            && (d.lignes != [] ==> Bouge(s, s', m, |s.ecritures|, d.lignes))
            && (d.lignes == [] && d.libelle != "" ==>
                  Bouge(s, s', m, |s.ecritures|, [Ligne(d.libelle, if d.quantite == 0.0 then 1.0 else d.quantite, None)]))
            && (d.lignes == [] && d.libelle == "" ==> s'.produits == s.produits && s'.mouvements == s.mouvements))
      && (!Recevable(s, m, d.cle, d.montant, t) ==> s' == s || (rep.Refusee? && s' == s.(sessions := s'.sessions) && JourneeOuverte(s, s', (m, Jour(t)))))
  {
    if Recevable(s, m, d.cle, d.montant, t) {
      var e := Ecriture(m, Vente, d.montant.n, Validee, InstantDe(d.date, t), d.cle);
      var s1, ls := AssurerSession(s, (m, Jour(t))).(ecritures := s.ecritures + [e]), LignesVendues(d);
      ConstatLois.LignesGardentEcritures(s1, m, |s.ecritures|, ls);
      LignesStocks(s1, m, |s.ecritures|, ls);
      LignesRangs(s1, m, |s.ecritures|, ls);
    }
  }

  /** The same for an expense, which has no basket. */
  lemma DepenseExacte(s: Etat, m: Marchand, d: DemandeDepense, t: int)
    ensures var (s', rep) := EnregistrerDepense(s, m, d, t);
      && ((rep.Ok? && rep.valeur.Some?) <==> Recevable(s, m, d.cle, d.montant, t))
      && (Recevable(s, m, d.cle, d.montant, t) ==>
            && rep.valeur == Some(|s.ecritures|)
            && UneLigneDePlus(s, s', m, Depense, d.montant.n, d.date, d.cle, t)
            && JourneeOuverte(s, s', (m, Jour(t))) && HorsVente(s, s') && s'.produits == s.produits && s'.mouvements == s.mouvements)
      && (!Recevable(s, m, d.cle, d.montant, t) ==> s' == s || (rep.Refusee? && s' == s.(sessions := s'.sessions) && JourneeOuverte(s, s', (m, Jour(t)))))
  {
  }

  /** The key is on one of the merchant's own lines: the request is a replay. */
  predicate Rejouee(s: Etat, m: Marchand, cle: Option<string>) {
    cle.Some? && exists i :: 0 <= i < |s.ecritures| && s.ecritures[i].cle == cle && s.ecritures[i].marchand == m
  }

  predicate JourneeClose(s: Etat, m: Marchand, t: int) { (m, Jour(t)) in s.sessions && !s.sessions[(m, Jour(t))].ouvert }

  /**
   Which answer: a replay first, whatever the rest; then the amount, then the day. A sale refuses an unreadable amount
   at once, an expense lets it through to the database, which fails after the day was opened.
   */
  lemma ReponsesDeVente(s: Etat, m: Marchand, cle: Option<string>, montant: Saisie, d: DemandeVente, e: DemandeDepense, t: int)
    requires d.cle == cle == e.cle && d.montant == montant == e.montant
    ensures var rep := EnregistrerVente(s, m, d, t).1;
      var mauvais := !montant.Nombre? || montant.n <= 0.0;
      && (rep == Ok(None) <==> Rejouee(s, m, cle))
      && (rep == Refusee(Invalide) <==> !Rejouee(s, m, cle) && mauvais)
      && (rep == Refusee(JourneeFermee) <==> !Rejouee(s, m, cle) && !mauvais && JourneeClose(s, m, t))
    ensures var rep := EnregistrerDepense(s, m, e, t).1;
      var mauvais := montant.Absente? || (montant.Nombre? && montant.n <= 0.0);
      && (rep == Ok(None) <==> Rejouee(s, m, cle))
      && (rep == Refusee(Invalide) <==> !Rejouee(s, m, cle) && mauvais)
      && (rep == Refusee(JourneeFermee) <==> !Rejouee(s, m, cle) && !mauvais && JourneeClose(s, m, t))
      && (montant.Illisible? && !Rejouee(s, m, cle) && !JourneeClose(s, m, t) ==> rep == Refusee(ErreurBase))
  {
  }

  /** A line written without key or guard: exactly for a positive amount and one of three natures, at the instant of the request. */
  lemma EcritureExacte(s: Etat, m: Marchand, nature: Nature, montant: real, t: int)
    ensures var (s', rep) := CreerEcriture(s, m, nature, montant, t);
      && (rep.Ok? <==> montant > 0.0 && (nature == Depense || nature == Remboursement || nature == Ajustement))
      && (rep.Refusee? ==> s' == s)
      && (rep.Ok? ==>
            && rep.valeur == |s.ecritures| && UneLigneDePlus(s, s', m, nature, montant, None, None, t)
            && s' == s.(ecritures := s'.ecritures))
  {
  }
}
