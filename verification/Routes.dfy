/**
 The till's routes, step by step on the database. Each is proved to leave exactly
 the tables, and to give exactly the reply, of the function of module Caisse that
 the laws are about.
 */
module Routes {
  import opened Commun
  import opened Tables
  import opened Stock
  import opened Caisse
  import opened BaseDonnees

  // ── stock-restitution.ts ────────────────────────────────────────────────

  datatype Restitution = Restitution(produit: nat, nom: string, quantite: real)

  function UneRestitution(ps: seq<Option<Produit>>, ledger: seq<Mouvement>, tx: nat, p: nat): Option<Restitution> {
    var g, net := Groupe(ledger, tx, p), Net(ledger, tx, p);
    if g.None? || net <= 0.0 || !Existe(ps, p) then None else Some(Restitution(p, g.value.nom, net))
  }

  /** The list the route answers with, over the first n products. */
  function Restitutions(ps: seq<Option<Produit>>, ledger: seq<Mouvement>, tx: nat, n: nat): seq<Restitution> {
    if n == 0 then []
    else
      var a, r := Restitutions(ps, ledger, tx, n - 1), UneRestitution(ps, ledger, tx, n - 1);
      if r.Some? then a + [r.value] else a
  }

  /** One pass of the loop. */
  method RendreUnProduit(b: Base, ledger: seq<Mouvement>, tx: nat, p: nat) returns (rendu: Option<Restitution>)
    modifies b`produits, b`mouvements
    ensures b.Vue() == RestituerUn(old(b.Vue()), ledger, tx, p)
    ensures rendu == UneRestitution(old(b.produits), ledger, tx, p)
  {
    var groupe, net := Groupe(ledger, tx, p), Net(ledger, tx, p);
    if groupe.None? || net <= 0.0 { return None; }
    if !Existe(b.produits, p) { return None; }
    var g, avant := groupe.value, StockLu(b.produits[p]);
    b.EcrireStock(p, avant + net);
    b.InsererMouvement(Mouvement(g.marchand, tx, Some(p), g.nom, avant, net, 0.0 - net, 0.0, g.unite, Annulation));
    return Some(Restitution(p, g.nom, net));
  }

  method RestituerLeStock(b: Base, tx: nat) returns (restitutions: seq<Restitution>)
    modifies b`produits, b`mouvements
    ensures b.Vue() == RestituerStock(old(b.Vue()), tx)
    ensures restitutions == Restitutions(old(b.produits), old(b.mouvements), tx, |old(b.produits)|)
  {
    var ledger, n := b.mouvements, |b.produits|;
    restitutions := [];
    var p := 0;
    while p < n
      invariant 0 <= p <= n == |b.produits|
      invariant b.Vue() == RestituerJusqua(old(b.Vue()), ledger, tx, p)
      invariant restitutions == Restitutions(old(b.produits), ledger, tx, p)
    {
      assert Existe(b.produits, p) <==> Existe(old(b.produits), p);
      var rendu := RendreUnProduit(b, ledger, tx, p);
      if rendu.Some? { restitutions := restitutions + [rendu.value]; }
      p := p + 1;
    }
  }

  // ── caisse-rest.controller.ts ───────────────────────────────────────────

  method AssurerLaSession(b: Base, cle: CleSession)
    modifies b`sessions
    ensures b.Vue() == AssurerSession(old(b.Vue()), cle)
  {
    if cle !in b.sessions { b.EcrireSession(cle, SessionNeuve(0.0, None)); }
  }

  method Journal(b: Base, cle: CleSession, ancien: Option<real>, nouveau: real, origine: Origine)
    modifies b`journal
    ensures b.journal == old(b.journal) + [LigneFond(cle, ancien, nouveau, origine)]
  {
    b.journal := b.journal + [LigneFond(cle, ancien, nouveau, origine)];
  }

  method PostVente(b: Base, m: Marchand, d: DemandeVente, maintenant: int) returns (r: Reponse<Option<nat>>)
    modifies b
    ensures (b.Vue(), r) == EnregistrerVente(old(b.Vue()), m, d, maintenant)
  {
    var cle := (m, Jour(maintenant));
    if CleDejaMienne(b.Vue(), m, d.cle) { return Ok(None); }
    if !d.montant.Nombre? || d.montant.n <= 0.0 { return Refusee(Invalide); }
    if JourFerme(b.Vue(), cle) { return Refusee(JourneeFermee); }
    AssurerLaSession(b, cle);
    var lignes := LignesVendues(d);
    if CleDejaPrise(b.Vue(), d.cle) { return Refusee(ErreurBase); }
    var tx := b.InsererEcriture(Ecriture(m, Vente, d.montant.n, Validee, InstantDe(d.date, maintenant), d.cle));
    ghost var ecrite := b.Vue();
    var i := 0;
    while i < |lignes|
      invariant 0 <= i <= |lignes|
      invariant b.Vue() == AppliquerLignes(ecrite, m, tx, lignes[..i])
    {
      var l := lignes[i];
      assert lignes[..i + 1][..i] == lignes[..i];
      i := i + 1;
      if l.nom == "" || !(l.qte > 0.0) { continue; }
      var trouve := ChercherProduit(b.produits, m, l);
      var decision := MouvementDeLigne(m, tx, l, if trouve.Some? then Some((trouve.value, b.produits[trouve.value].value)) else None);
      if decision.stockApres.Some? {
        b.EcrireStock(trouve.value, decision.stockApres.value);
      }
      b.InsererMouvement(decision.mouvement);
    }
    assert lignes[..|lignes|] == lignes;
    return Ok(Some(tx));
  }

  method PostDepense(b: Base, m: Marchand, d: DemandeDepense, maintenant: int) returns (r: Reponse<Option<nat>>)
    modifies b
    ensures (b.Vue(), r) == EnregistrerDepense(old(b.Vue()), m, d, maintenant)
  {
    var cle := (m, Jour(maintenant));
    if CleDejaMienne(b.Vue(), m, d.cle) { return Ok(None); }
    if d.montant.Absente? || (d.montant.Nombre? && d.montant.n <= 0.0) { return Refusee(Invalide); }
    if JourFerme(b.Vue(), cle) { return Refusee(JourneeFermee); }
    AssurerLaSession(b, cle);
    if d.montant.Illisible? || CleDejaPrise(b.Vue(), d.cle) { return Refusee(ErreurBase); }
    var id := b.InsererEcriture(Ecriture(m, Depense, d.montant.n, Validee, InstantDe(d.date, maintenant), d.cle));
    return Ok(Some(id));
  }

  method PatchAnnuler(b: Base, m: Marchand, id: nat, maintenant: int) returns (r: Reponse<()>, restitutions: seq<Restitution>)
    modifies b
    ensures (b.Vue(), r) == AnnulerVente(old(b.Vue()), m, id, maintenant)
    ensures r.Ok? ==> restitutions == Restitutions(old(b.produits), old(b.mouvements), id, |old(b.produits)|)
  {
    restitutions := [];
    if id >= |b.ecritures| || b.ecritures[id].marchand != m { r := Refusee(Introuvable); return; }
    var e := b.ecritures[id];
    if e.nature != Vente { r := Refusee(Invalide); return; }
    if e.statut != Validee || Jour(e.creeLe) != Jour(maintenant) { r := Refusee(NonAnnulable); return; }
    if JourFerme(b.Vue(), (m, Jour(maintenant))) { r := Refusee(JourneeFermee); return; }
    b.ecritures := b.ecritures[id := e.(statut := Annulee)];
    restitutions := RestituerLeStock(b, id);
    r := Ok(());
  }

  method PostOuvrir(b: Base, m: Marchand, fond: Option<real>, maintenant: int) returns (r: Reponse<()>)
    modifies b
    ensures (b.Vue(), r) == Ouvrir(old(b.Vue()), m, fond, maintenant)
  {
    var cle := (m, Jour(maintenant));
    if fond.None? || fond.value < 0.0 { return Refusee(Invalide); }
    if cle !in b.sessions {
      b.EcrireSession(cle, SessionNeuve(fond.value, Some(maintenant)));
      Journal(b, cle, None, fond.value, Declaration);
      return Ok(());
    }
    var s := b.sessions[cle];
    if s.declareLe.None? {
      b.EcrireSession(cle, s.(fond := fond.value, declareLe := Some(maintenant), ouvert := true, fermeLe := None));
      Journal(b, cle, Some(s.fond), fond.value, Declaration);
    } else if !s.ouvert {
      b.EcrireSession(cle, s.(ouvert := true, fermeLe := None));
    }
    return Ok(());
  }

  method PatchFond(b: Base, m: Marchand, fond: Option<real>, maintenant: int) returns (r: Reponse<()>)
    modifies b
    ensures (b.Vue(), r) == CorrigerFond(old(b.Vue()), m, fond, maintenant)
  {
    var cle := (m, Jour(maintenant));
    if fond.None? || fond.value < 0.0 { return Refusee(Invalide); }
    if cle !in b.sessions {
      b.EcrireSession(cle, SessionNeuve(fond.value, Some(maintenant)));
      Journal(b, cle, None, fond.value, Declaration);
      return Ok(());
    }
    var s := b.sessions[cle];
    b.EcrireSession(cle, s.(fond := fond.value, declareLe := if s.declareLe.Some? then s.declareLe else Some(maintenant)));
    Journal(b, cle, Some(s.fond), fond.value, if s.declareLe.Some? then Correction else Declaration);
    return Ok(());
  }

  method PostFermer(b: Base, m: Marchand, comptage: Option<real>, maintenant: int) returns (r: Reponse<real>)
    modifies b
    ensures (b.Vue(), r) == Fermer(old(b.Vue()), m, comptage, maintenant)
  {
    var cle := (m, Jour(maintenant));
    if comptage.None? || comptage.value < 0.0 { return Refusee(Invalide); }
    if cle !in b.sessions { return Refusee(Introuvable); }
    var s := b.sessions[cle];
    if !s.ouvert && s.fermeLe.Some? { return Refusee(DejaFermee); }
    var theorique := CaisseTheorique(b.ecritures, m, s.fond, Jour(maintenant));
    var ecart := comptage.value - theorique;
    b.EcrireSession(cle, s.(ouvert := false, fermeLe := Some(maintenant), fondFinal := comptage.value,
                            theorique := Some(theorique), ecart := Some(ecart)));
    return Ok(ecart);
  }

  method PostTransaction(b: Base, m: Marchand, nature: Nature, montant: real, maintenant: int) returns (r: Reponse<nat>)
    modifies b
    ensures (b.Vue(), r) == CreerEcriture(old(b.Vue()), m, nature, montant, maintenant)
  {
    if !(montant > 0.0) { return Refusee(Invalide); }
    if nature !in {Depense, Remboursement, Ajustement} { return Refusee(Invalide); }
    var id := b.InsererEcriture(Ecriture(m, nature, montant, Validee, maintenant, None));
    return Ok(id);
  }

  method PostProduit(b: Base, m: Marchand, nom: string, stock: Option<real>, unite: string) returns (r: Reponse<nat>)
    modifies b
    ensures (b.Vue(), r) == CreerProduit(old(b.Vue()), m, nom, stock, unite)
  {
    if |Rogner(nom)| < 2 { return Refusee(Invalide); }
    if Rogner(unite) == "" { return Refusee(Invalide); }
    b.produits := b.produits + [Some(Produit(m, Rogner(nom), stock, Some(Rogner(unite)), true))];
    return Ok(|b.produits| - 1);
  }

  method PutProduit(b: Base, m: Marchand, id: nat, c: Colonnes) returns (r: Reponse<()>)
    modifies b
    ensures (b.Vue(), r) == ModifierProduit(old(b.Vue()), m, id, c)
  {
    var renomme := c.nom.Some? && Rogner(c.nom.value) != "";
    if !renomme && c.stock.None? && c.unite.None? && !c.autre { return Refusee(Invalide); }
    if !EstA(b.produits, id, m) { return Refusee(Introuvable); }
    var p := b.produits[id].value;
    if renomme { p := p.(nom := c.nom.value); }
    if c.stock.Some? { p := p.(stock := c.stock); }
    if c.unite.Some? { p := p.(unite := c.unite.value); }
    b.produits := b.produits[id := Some(p)];
    return Ok(());
  }

  method DeleteProduit(b: Base, m: Marchand, id: nat)
    modifies b
    ensures b.Vue() == SupprimerProduit(old(b.Vue()), m, id)
  {
    if EstA(b.produits, id, m) {
      b.produits := b.produits[id := Some(b.produits[id].value.(actif := false))];
    }
  }

  // ── stocks-rest.controller.ts ───────────────────────────────────────────

  method PostStock(b: Base, m: Marchand, nom: Option<string>, quantite: real, unite: Option<string>) returns (r: Reponse<nat>)
    modifies b
    ensures (b.Vue(), r) == PoserStock(old(b.Vue()), m, nom, quantite, unite)
  {
    if nom.None? { return Refusee(ErreurBase); }
    b.produits := b.produits + [Some(Produit(m, nom.value, Some(quantite), Some(if unite.Some? then unite.value else "unite"), true))];
    return Ok(|b.produits| - 1);
  }

  /** The key is inserted first, in the transaction of the update. */
  method PatchStock(
    b: Base, m: Marchand, id: nat, nom: Option<string>, quantite: Option<real>, unite: Option<string>, cle: Option<string>)
    returns (rejoue: bool)
    modifies b
    ensures (b.Vue(), rejoue) == MajStock(old(b.Vue()), m, id, nom, quantite, unite, cle)
  {
    if cle.Some? {
      if cle.value in b.clesStock { return true; }
      b.clesStock := b.clesStock + {cle.value};
    }
    if EstA(b.produits, id, m) {
      var p := b.produits[id].value;
      if nom.Some? { p := p.(nom := nom.value); }
      if quantite.Some? { p := p.(stock := quantite); }
      if unite.Some? { p := p.(unite := unite); }
      b.produits := b.produits[id := Some(p)];
    }
    return false;
  }

  method DeleteStock(b: Base, m: Marchand, id: nat)
    modifies b
    ensures b.Vue() == EffacerProduit(old(b.Vue()), m, id)
  {
    if EstA(b.produits, id, m) { b.produits := b.produits[id := None]; }
  }

  // ── transactions-rest.controller.ts ─────────────────────────────────────

  method PatchStatut(b: Base, id: nat, statut: Statut, motifValable: bool) returns (r: Reponse<()>, restitutions: seq<Restitution>)
    modifies b
    ensures (b.Vue(), r) == ChangerStatut(old(b.Vue()), id, statut, motifValable)
    ensures restitutions ==
      if r.Ok? && statut == Annulee && old(b.ecritures)[id].statut != Annulee
      then Restitutions(old(b.produits), old(b.mouvements), id, |old(b.produits)|) else []
  {
    restitutions := [];
    if statut in {Gelee, Annulee, Litige} && !motifValable { r := Refusee(Invalide); return; }
    if id >= |b.ecritures| { r := Refusee(Introuvable); return; }
    var ancien := b.ecritures[id].statut;
    b.ecritures := b.ecritures[id := b.ecritures[id].(statut := statut)];
    if statut == Annulee && ancien != Annulee { restitutions := RestituerLeStock(b, id); }
    r := Ok(());
  }

  // ── encaisser-credit.ts ─────────────────────────────────────────────────

  /** The caller has opened the transaction; the four writes follow a locked read. */
  method Encaisser(b: Base, m: Marchand, id: nat, brut: real, cle: string, maintenant: int) returns (r: Reponse<Encaissement>)
    modifies b
    ensures (b.Vue(), r) == EncaisserCredit(old(b.Vue()), m, id, brut, cle, maintenant)
  {
    var montant := Arrondir(brut);
    if montant <= 0.0 || cle == "" { return Refusee(Invalide); }
    if id >= |b.credits| || b.credits[id].marchand != m { return Refusee(Introuvable); }
    var c := b.credits[id];
    if ClePrise(b.ecritures, cle) {
      var reste := Arrondir(Max(0.0, c.total - c.acompte));
      return Ok(Encaissement(true, NaturePaiement(reste), reste));
    }
    var resteAvant := Max(0.0, Arrondir(c.total) - Arrondir(c.acompte));
    if resteAvant == 0.0 { return Refusee(DejaSolde); }
    if montant > resteAvant { return Refusee(DepasseLeRestant); }
    var resteApres := resteAvant - montant;
    var nature := NaturePaiement(resteApres);
    b.credits := b.credits[id := c.(acompte := c.acompte + montant, paye := c.paye || resteApres == 0.0)];
    b.clients := BaisserDette(b.clients, (m, c.client), montant);
    var _ := b.InsererEcriture(Ecriture(m, nature, montant, Validee, maintenant, Some(cle)));
    b.audits := b.audits + [Audit(m, id, montant, resteAvant, resteApres, nature)];
    return Ok(Encaissement(false, nature, resteApres));
  }

  // ── credits.controller.ts ───────────────────────────────────────────────

  method PostCredit(b: Base, m: Marchand, d: DemandeCredit, maintenant: int) returns (r: Reponse<nat>)
    modifies b
    ensures (b.Vue(), r) == CreerCredit(old(b.Vue()), m, d, maintenant)
  {
    if d.client == "" || !d.total.Nombre? || !d.echeance { return Refusee(Invalide); }
    if !d.acompte.Illisible? && Verse(d) > d.total.n { return Refusee(Invalide); }
    var avant := b.Vue();
    var id := |b.credits|;
    b.clients := HausserDette(b.clients, (m, d.client), d.total.n);
    b.credits := b.credits + [Credit(m, d.client, d.total.n, 0.0, false)];
    if Verse(d) > 0.0 {
      if JourFerme(b.Vue(), (m, Jour(maintenant))) {
        b.Annuler(avant);
        return Refusee(JourneeFermee);
      }
      var e := Encaisser(b, m, id, Verse(d), CleCreation(d.cle, id), maintenant);
      if e.Refusee? {
        b.Annuler(avant);
        return Refusee(e.refus);
      }
    }
    return Ok(id);
  }

  method PatchPayer(b: Base, m: Marchand, id: nat, cle: Option<string>, maintenant: int) returns (r: Reponse<Option<Encaissement>>)
    modifies b
    ensures (b.Vue(), r) == MarquerPaye(old(b.Vue()), m, id, cle, maintenant)
  {
    if id >= |b.credits| || b.credits[id].marchand != m { return Refusee(Introuvable); }
    var reste := Arrondir(b.credits[id].total - b.credits[id].acompte);
    if reste <= 0.0 { return Ok(None); }
    if JourFerme(b.Vue(), (m, Jour(maintenant))) { return Refusee(JourneeFermee); }
    var avant := b.Vue();
    var e := Encaisser(b, m, id, reste, CleReglement(cle, id), maintenant);
    if e.Refusee? {
      b.Annuler(avant);
      return Refusee(e.refus);
    }
    return Ok(Some(e.valeur));
  }

  method PatchAcompte(b: Base, m: Marchand, id: nat, montant: Option<real>, cle: Option<string>, maintenant: int)
    returns (r: Reponse<Encaissement>)
    modifies b
    ensures (b.Vue(), r) == AjouterAcompte(old(b.Vue()), m, id, montant, cle, maintenant)
  {
    if montant.None? || montant.value <= 0.0 || cle.None? { return Refusee(Invalide); }
    if JourFerme(b.Vue(), (m, Jour(maintenant))) { return Refusee(JourneeFermee); }
    r := Encaisser(b, m, id, montant.value, CleAcompte(cle.value), maintenant);
  }
}
