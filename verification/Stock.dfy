/**
 What a sale and its cancellation do to the stock and to its ledger:
 reconciliation-stock.ts, stock-restitution.ts and the basket loop of
 caisse-rest.controller.ts.
 */
module Stock {
  import opened Commun
  import opened Tables
  import opened Sommes

  /** A basket line once read: quantity defaulted to 1, id kept only when it is a product id. */
  datatype Ligne = Ligne(nom: string, qte: real, id: Option<nat>)

  /** The ledger row one sold line produces, and what to write in produits.stock (None: nothing). */
  datatype Decision = Decision(mouvement: Mouvement, stockApres: Option<real>)

  /** `trouve` is the product row the line designates, with its id, when there is one. */
  function MouvementDeLigne(marchand: Marchand, tx: nat, ligne: Ligne, trouve: Option<(nat, Produit)>): (d: Decision)
    ensures d.mouvement.retranchee + d.mouvement.manquant == ligne.qte == d.mouvement.demandee
    ensures trouve.None? <==> d.stockApres.None?
    ensures d.stockApres.Some? ==> d.stockApres.value == d.mouvement.stockAvant - d.mouvement.retranchee
    ensures ligne.qte >= 0.0 ==> 0.0 <= d.mouvement.retranchee <= ligne.qte
    ensures d.stockApres.Some? && d.mouvement.stockAvant >= 0.0 ==> d.stockApres.value >= 0.0
    // Nothing is reported missing while stock remains, and a negative stock is not made worse.
    ensures d.stockApres.Some? && d.mouvement.manquant > 0.0 ==> d.stockApres.value <= 0.0
    ensures ligne.qte >= 0.0 && d.mouvement.stockAvant <= 0.0 ==> d.mouvement.retranchee == 0.0
    ensures trouve.Some? ==> d.mouvement.produit == Some(trouve.value.0) && d.mouvement.genre == SortieVente
    ensures trouve.None? ==> d.mouvement.retranchee == 0.0 && (d.mouvement.genre == NonReconcilie <==> ligne.id.Some?)
  {
    match trouve
    case None =>
      Decision(
        Mouvement(marchand, tx, ligne.id, ligne.nom, 0.0, ligne.qte, 0.0, ligne.qte, None,
                  if ligne.id.Some? then NonReconcilie else SansCatalogue),
        None)
    case Some((id, p)) =>
      var avant := StockLu(Some(p));
      var retranchee := Min(ligne.qte, Max(0.0, avant));
      Decision(
        Mouvement(marchand, tx, Some(id), ligne.nom, avant, ligne.qte, retranchee, ligne.qte - retranchee, p.unite, SortieVente),
        Some(avant - retranchee))
  }

  predicate DesigneParNom(p: Option<Produit>, marchand: Marchand, nom: string) {
    p.Some? && p.value.marchand == marchand && p.value.actif && Minuscules(p.value.nom) == Minuscules(nom)
  }

  /** LIMIT 1 over the merchant's active products of that name: the lowest id. */
  function ChercherParNom(ps: seq<Option<Produit>>, marchand: Marchand, nom: string): (r: Option<nat>)
    ensures r.Some? ==> r.value < |ps| && DesigneParNom(ps[r.value], marchand, nom)
    ensures r.Some? ==> forall i :: 0 <= i < r.value ==> !DesigneParNom(ps[i], marchand, nom)
    ensures r.None? ==> forall i :: 0 <= i < |ps| ==> !DesigneParNom(ps[i], marchand, nom)
  {
    if ps == [] then None
    else
      var r := ChercherParNom(ps[..|ps| - 1], marchand, nom);
      if r.Some? then r
      else if DesigneParNom(ps[|ps| - 1], marchand, nom) then Some(|ps| - 1)
      else None
  }

  /** The product a line designates: by its id when it has one, by its name otherwise. */
  function ChercherProduit(ps: seq<Option<Produit>>, marchand: Marchand, ligne: Ligne): (r: Option<nat>)
    ensures r.Some? ==> EstA(ps, r.value, marchand) && ps[r.value].value.actif
    ensures r.Some? && ligne.id.Some? ==> r == ligne.id
  {
    match ligne.id
    case Some(id) => if EstA(ps, id, marchand) && ps[id].value.actif then Some(id) else None
    case None => ChercherParNom(ps, marchand, ligne.nom)
  }

  /** A line without a name or with a quantity that is not positive is skipped. */
  predicate LigneUtile(ligne: Ligne) { ligne.nom != "" && ligne.qte > 0.0 }

  /** The same rows are there, the same up to their stock. */
  predicate MemesProduits(ps: seq<Option<Produit>>, ps': seq<Option<Produit>>) {
    && |ps| == |ps'|
    && forall i :: 0 <= i < |ps| ==>
         (ps[i].Some? <==> ps'[i].Some?) && (ps[i].Some? ==> ps'[i].value == ps[i].value.(stock := ps'[i].value.stock))
  }

  function AppliquerLigne(s: Etat, marchand: Marchand, tx: nat, ligne: Ligne): (r: Etat)
    ensures MemesProduits(s.produits, r.produits)
  {
    if !LigneUtile(ligne) then s
    else
      var id := ChercherProduit(s.produits, marchand, ligne);
      if id.None? then
        s.(mouvements := s.mouvements + [MouvementDeLigne(marchand, tx, ligne, None).mouvement])
      else
        var p := s.produits[id.value].value;
        var d := MouvementDeLigne(marchand, tx, ligne, Some((id.value, p)));
        s.(produits := s.produits[id.value := Some(p.(stock := d.stockApres))],
           mouvements := s.mouvements + [d.mouvement])
  }

  function AppliquerLignes(s: Etat, marchand: Marchand, tx: nat, lignes: seq<Ligne>): (r: Etat)
    ensures MemesProduits(s.produits, r.produits)
  {
    if lignes == [] then s
    else AppliquerLigne(AppliquerLignes(s, marchand, tx, lignes[..|lignes| - 1]), marchand, tx, lignes[|lignes| - 1])
  }

  // ── What the ledger says ────────────────────────────────────────────────

  function SurProduit(p: nat): Mouvement -> real {
    (m: Mouvement) => if m.produit == Some(p) then m.retranchee else 0.0
  }

  /** COALESCE(SUM(quantite_retranchee), 0) for one sale and one product. */
  function Net(ms: seq<Mouvement>, tx: nat, p: nat): real {
    Somme(PoidsNet(tx, p), ms)
  }

  function PoidsNet(tx: nat, p: nat): Mouvement -> real {
    (m: Mouvement) => if m.transaction == tx && m.produit == Some(p) then m.retranchee else 0.0
  }

  /** What a sale took from a product. */
  function Pris(ms: seq<Mouvement>, tx: nat, p: nat): real {
    Somme(PoidsPris(tx, p), ms)
  }

  function PoidsPris(tx: nat, p: nat): Mouvement -> real {
    (m: Mouvement) => if m.transaction == tx && m.produit == Some(p) && m.genre != Annulation then m.retranchee else 0.0
  }

  /** What cancellations of that sale gave back to the product. */
  function Rendu(ms: seq<Mouvement>, tx: nat, p: nat): real {
    Somme(PoidsRendu(tx, p), ms)
  }

  function PoidsRendu(tx: nat, p: nat): Mouvement -> real {
    (m: Mouvement) => if m.transaction == tx && m.produit == Some(p) && m.genre == Annulation then 0.0 - m.retranchee else 0.0
  }

  lemma {:induction false} NetEstPrisMoinsRendu(ms: seq<Mouvement>, tx: nat, p: nat)
    ensures Net(ms, tx, p) == Pris(ms, tx, p) - Rendu(ms, tx, p)
  {
    if ms != [] { NetEstPrisMoinsRendu(ms[..|ms| - 1], tx, p); }
  }

  lemma LedgerAjout(ms: seq<Mouvement>, m: Mouvement, tx: nat, p: nat)
    ensures Net(ms + [m], tx, p) == Net(ms, tx, p) + PoidsNet(tx, p)(m)
    ensures Pris(ms + [m], tx, p) == Pris(ms, tx, p) + PoidsPris(tx, p)(m)
    ensures Rendu(ms + [m], tx, p) == Rendu(ms, tx, p) + PoidsRendu(tx, p)(m)
  {
    SommeAjout(PoidsNet(tx, p), ms, m);
    SommeAjout(PoidsPris(tx, p), ms, m);
    SommeAjout(PoidsRendu(tx, p), ms, m);
  }

  // ── Restitution ─────────────────────────────────────────────────────────

  /** One pass of the restitution loop: give product p back what the sale still holds of it. */
  function RestituerProduit(s: Etat, marchand: Marchand, tx: nat, p: nat, net: real, nom: string, unite: Option<string>): Etat
    requires Existe(s.produits, p)
  {
    if net <= 0.0 then s
    else
      var avant := StockLu(s.produits[p]);
      s.(produits := s.produits[p := Some(s.produits[p].value.(stock := Some(avant + net)))],
         mouvements := s.mouvements + [Mouvement(marchand, tx, Some(p), nom, avant, net, 0.0 - net, 0.0, unite, Annulation)])
  }

  /** The columns the restitution copies from the sale's rows, each with MAX. */
  datatype Description = Description(marchand: Marchand, nom: string, unite: Option<string>)

  predicate Avant(a: string, b: string) {
    b != [] && (a == [] || a[0] < b[0] || (a[0] == b[0] && Avant(a[1..], b[1..])))
  }

  function MaxTexte(a: string, b: string): string { if Avant(a, b) then b else a }

  /** MAX ignores NULL. */
  function MaxUnite(a: Option<string>, b: Option<string>): Option<string> {
    if a.None? then b else if b.None? then a else Some(MaxTexte(a.value, b.value))
  }

  /** GROUP BY produit_id: None when the sale has no row for that product. */
  function Groupe(ms: seq<Mouvement>, tx: nat, p: nat): Option<Description> {
    if ms == [] then None
    else
      var g, m := Groupe(ms[..|ms| - 1], tx, p), ms[|ms| - 1];
      if m.transaction != tx || m.produit != Some(p) then g
      else if g.None? then Some(Description(m.marchand, m.nom, m.unite))
      else Some(Description(
                  if g.value.marchand < m.marchand then m.marchand else g.value.marchand,
                  MaxTexte(g.value.nom, m.nom), MaxUnite(g.value.unite, m.unite)))
  }

  /** A product deleted in the meantime is skipped. */
  function RestituerUn(s: Etat, ledger: seq<Mouvement>, tx: nat, p: nat): (r: Etat)
    ensures MemesProduits(s.produits, r.produits)
  {
    var g := Groupe(ledger, tx, p);
    if g.None? || !Existe(s.produits, p) then s
    else RestituerProduit(s, g.value.marchand, tx, p, Net(ledger, tx, p), g.value.nom, g.value.unite)
  }

  /** The loop over the products of the sale, in id order; `ledger` is the ledger as the query read it. */
  function RestituerJusqua(s: Etat, ledger: seq<Mouvement>, tx: nat, n: nat): (r: Etat)
    requires n <= |s.produits|
    ensures MemesProduits(s.produits, r.produits) && r == s.(produits := r.produits, mouvements := r.mouvements)
  {
    if n == 0 then s else RestituerUn(RestituerJusqua(s, ledger, tx, n - 1), ledger, tx, n - 1)
  }

  function RestituerStock(s: Etat, tx: nat): Etat {
    RestituerJusqua(s, s.mouvements, tx, |s.produits|)
  }
}
