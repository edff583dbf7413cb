/** What each wallet request is refused for, and what it brings to every wallet; balances over runs. */
module PortefeuilleLois {
  import opened Commun
  import opened Sommes
  import opened Portefeuilles

  /** The wallet is there and its account is not suspended. */
  predicate Utilisable(s: Coffre, u: nat) { u < |s.portefeuilles| && !s.portefeuilles[u].suspendu }

  /** What can be spent: the balance less what is blocked of it. */
  predicate Disponible(s: Coffre, u: nat, x: real) { Utilisable(s, u) && x <= s.portefeuilles[u].solde - s.portefeuilles[u].bloque }

  /** The wallet gets x more, or x less, with one journal row that says so; nothing else moves. */
  ghost predicate UnMouvement(s: Coffre, s': Coffre, u: nat, x: real, sens: Sens) {
    && u < |s.portefeuilles|
    && s' == s.(portefeuilles := s'.portefeuilles, journal := s.journal + [Mouvement(u, sens, x, None, None)])
    && s'.portefeuilles == s.portefeuilles[u := s.portefeuilles[u].(solde :=
         s.portefeuilles[u].solde + if sens == Credite then x else 0.0 - x)]
  }

  /** An administrator's credit or debit, and a contribution: done exactly when it may be, and nothing moves otherwise. */
  lemma MouvementsExacts(s: Coffre, u: nat, x: Option<real>, motif: bool, keiwa: bool)
    ensures var (s', refus) := Crediter(s, u, x, motif);
      && (refus.None? <==> x.Some? && x.value > 0.0 && motif && Utilisable(s, u))
      && if refus.None? then UnMouvement(s, s', u, x.value, Credite) else s' == s
    ensures var (s', refus) := Debiter(s, u, x, motif);
      && (refus.None? <==> x.Some? && x.value > 0.0 && motif && Disponible(s, u, x.value))
      && if refus.None? then UnMouvement(s, s', u, x.value, Debite) else s' == s
    ensures var (s', refus) := Cotiser(s, u, x, motif, keiwa);
      && (refus.None? <==> x.Some? && 0.0 < x.value <= 10_000_000.0 && motif && (keiwa ==> Disponible(s, u, x.value)))
      && if refus.None? && keiwa then UnMouvement(s, s', u, x.value, Debite) else s' == s
  {
  }

  /** Which refusal: a bad request first, then a wallet that is not there, a suspended account, and too little to spend. */
  lemma RefusExacts(s: Coffre, u: nat, x: Option<real>, motif: bool)
    ensures var bon := x.Some? && x.value > 0.0 && motif;
      && (Crediter(s, u, x, motif).1 == Some(Invalide) <==> !bon) && (Debiter(s, u, x, motif).1 == Some(Invalide) <==> !bon)
      && (Crediter(s, u, x, motif).1 == Some(Introuvable) <==> bon && u >= |s.portefeuilles|)
      && (Debiter(s, u, x, motif).1 == Some(Introuvable) <==> bon && u >= |s.portefeuilles|)
      && (Crediter(s, u, x, motif).1 == Some(Bloque) <==> bon && u < |s.portefeuilles| && s.portefeuilles[u].suspendu)
      && (Debiter(s, u, x, motif).1 == Some(Bloque) <==> bon && u < |s.portefeuilles| && s.portefeuilles[u].suspendu)
      && (Debiter(s, u, x, motif).1 == Some(SoldeInsuffisant) <==> bon && Utilisable(s, u) && !Disponible(s, u, x.value))
  {
  }

  /** A reset empties both columns of one wallet, and journals the balance it takes when there is one. */
  lemma ReinitialiserExact(s: Coffre, u: nat, confirme: bool, motif: bool)
    ensures var (s', refus) := Reinitialiser(s, u, confirme, motif);
      && (refus.None? <==> confirme && motif && u < |s.portefeuilles|) && (refus.Some? ==> s' == s)
      && (refus.None? ==>
            var p := s.portefeuilles[u];
            && s'.commandes == s.commandes && s'.portefeuilles == s.portefeuilles[u := Portefeuille(0.0, 0.0, p.suspendu)]
            && s'.journal == if p.solde > 0.0 then s.journal + [Mouvement(u, Debite, p.solde, None, None)] else s.journal)
  {
  }

  /** Collecting an order: who may, when it moves money, and that it is then paid. */
  lemma PayerExact(s: Coffre, id: nat, appelant: nat)
    ensures var (s', refus) := Payer(s, id, appelant);
      && (id >= |s.commandes| ==> refus == Some(Introuvable) && s' == s)
      && (id < |s.commandes| ==>
            var c := s.commandes[id];
            && (c.vendeur != appelant ==> refus == Some(Interdit) && s' == s)
            && (c.vendeur == appelant && c.payee ==> refus.None? && s' == s)
            && (c.vendeur == appelant && !c.payee && !c.keiwa ==>
                  refus.None? && s' == s.(commandes := s.commandes[id := c.(payee := true)]))
            && (c.vendeur == appelant && !c.payee && c.keiwa ==>
                  var a := c.acheteur;
                  && (refus.None? <==>
                        && !c.directe && a.Some? && c.total > 0.0
                        && Utilisable(s, a.value) && Utilisable(s, c.vendeur) && s.portefeuilles[a.value].solde >= c.total)
                  && (refus.Some? ==> s' == s)
                  && (refus.None? ==>
                        && s'.commandes == s.commandes[id := c.(payee := true)]
                        && s'.journal == s.journal + [Mouvement(a.value, Debite, c.total, Some(id), None), Mouvement(c.vendeur, Credite, c.total, Some(id), None)])))
  {
  }

  // ── Balances over runs ──────────────────────────────────────────────────

  /** What a request brings to the wallet of u, from what it asks and whether it may. */
  function Apport(s: Coffre, r: Requete, u: nat): real
    requires u < |s.portefeuilles|
  {
    match r
    case RCrediter(q, x, motif) => if q == u && x.Some? && x.value > 0.0 && motif && Utilisable(s, u) then x.value else 0.0
    case RDebiter(q, x, motif) => if q == u && x.Some? && x.value > 0.0 && motif && Disponible(s, u, x.value) then 0.0 - x.value else 0.0
    case RReinitialiser(q, confirme, motif) => if q == u && confirme && motif then 0.0 - s.portefeuilles[u].solde else 0.0
    case RSuspendre(_, _) => 0.0
    case RCommander(_) => 0.0
    case RCotiser(q, x, valable, keiwa) =>
      if q == u && keiwa && valable && x.Some? && 0.0 < x.value <= 10_000_000.0 && Disponible(s, u, x.value) then 0.0 - x.value else 0.0
    case REnvoyer(e, d, x, cle) =>
      if (u != e && u != d) || !Envoyable(s, e, d, x, cle) then 0.0 else if u == e then 0.0 - x.value as real else x.value as real
    case RPayer(id, appelant) =>
      if !Payable(s, id, appelant) then 0.0
      else
        var c := s.commandes[id];
        if u == c.vendeur then c.total else if c.acheteur == Some(u) then 0.0 - c.total else 0.0
  }

  /** No row of that user in that direction has the key. */
  predicate CleNeuve(s: Coffre, u: nat, sens: Sens, cle: Option<string>) {
    cle.Some? ==> forall i :: 0 <= i < |s.journal| ==> !(s.journal[i].user == u && s.journal[i].sens == sens && s.journal[i].cle == cle)
  }

  /** A transfer that moves money: whole francs within the limit, between two usable accounts, under a new key. */
  predicate Envoyable(s: Coffre, e: nat, d: nat, x: Option<int>, cle: Option<string>) {
    && x.Some? && 0 < x.value <= 10_000_000 && e != d
    && Disponible(s, e, x.value as real) && Utilisable(s, d) && CleNeuve(s, e, Debite, cle) && CleNeuve(s, d, Credite, cle)
  }

  /** A payment that moves money. */
  predicate Payable(s: Coffre, id: nat, appelant: nat) {
    && id < |s.commandes|
    && var c := s.commandes[id];
       && c.vendeur == appelant && !c.payee && c.keiwa && !c.directe && c.acheteur.Some? && c.total > 0.0
       && Utilisable(s, c.acheteur.value) && Utilisable(s, c.vendeur) && s.portefeuilles[c.acheteur.value].solde >= c.total
  }

  lemma EnvoyerApport(s: Coffre, e: nat, d: nat, x: Option<int>, cle: Option<string>, u: nat)
    requires u < |s.portefeuilles|
    ensures var s' := Envoyer(s, e, d, x, cle).0;
      |s'.portefeuilles| == |s.portefeuilles| && s'.portefeuilles[u].solde == s.portefeuilles[u].solde + Apport(s, REnvoyer(e, d, x, cle), u)
  {
  }

  lemma PayerApport(s: Coffre, id: nat, appelant: nat, u: nat)
    requires u < |s.portefeuilles|
    ensures var s' := Payer(s, id, appelant).0;
      |s'.portefeuilles| == |s.portefeuilles| && s'.portefeuilles[u].solde == s.portefeuilles[u].solde + Apport(s, RPayer(id, appelant), u)
  {
    var r := RPayer(id, appelant);
    PaiementOuRien(s, r);
    if PaiementEffectif(s, r) { TransfertSoldes(s.portefeuilles, s.commandes[id].acheteur.value, s.commandes[id].vendeur, s.commandes[id].total, u); }
  }

  lemma EtapeApport(s: Coffre, r: Requete, u: nat)
    requires u < |s.portefeuilles|
    ensures |Etape(s, r).portefeuilles| == |s.portefeuilles|
    ensures Etape(s, r).portefeuilles[u].solde == s.portefeuilles[u].solde + Apport(s, r, u)
  {
    match r
    case REnvoyer(e, d, x, cle) => EnvoyerApport(s, e, d, x, cle, u);
    case RPayer(id, appelant) => PayerApport(s, id, appelant, u);
    case _ =>
  }

  function Apports(s: Coffre, rs: seq<Requete>, u: nat): real
    requires u < |s.portefeuilles|
  {
    if rs == [] then 0.0
    else
      TailleFixe(s, rs[..|rs| - 1]);
      Apports(s, rs[..|rs| - 1], u) + Apport(Executer(s, rs[..|rs| - 1]), rs[|rs| - 1], u)
  }

  /** Over every run each balance is what it was plus what every request brought it. */
  lemma {:induction false} RunApports(s: Coffre, rs: seq<Requete>, u: nat)
    requires u < |s.portefeuilles|
    ensures |Executer(s, rs).portefeuilles| == |s.portefeuilles|
    ensures Executer(s, rs).portefeuilles[u].solde == s.portefeuilles[u].solde + Apports(s, rs, u)
  {
    if rs != [] {
      var a := rs[..|rs| - 1];
      RunApports(s, a, u);
      EtapeApport(Executer(s, a), rs[|rs| - 1], u);
    }
  }

  /** A successful reset of the wallet of u. */
  predicate Remet(r: Requete, u: nat) { r.RReinitialiser? && r.u == u && r.confirme && r.motif }

  /** The account is suspended as the last request about it says, and what is blocked stays until a reset empties it. */
  lemma {:induction false} RunEtats(s: Coffre, rs: seq<Requete>, u: nat)
    requires u < |s.portefeuilles|
    ensures |Executer(s, rs).portefeuilles| == |s.portefeuilles|
    ensures var p := Executer(s, rs).portefeuilles[u];
      && p.suspendu == DernierEtat(rs, u, s.portefeuilles[u].suspendu)
      && p.bloque == if exists k :: 0 <= k < |rs| && Remet(rs[k], u) then 0.0 else s.portefeuilles[u].bloque
  {
    if rs != [] {
      var n := |rs| - 1;
      RunEtats(s, rs[..n], u);
      EtapeEtats(Executer(s, rs[..n]), rs[n], u);
      if exists k :: 0 <= k < |rs| && Remet(rs[k], u) {
        var k :| 0 <= k < |rs| && Remet(rs[k], u);
        if k < n { assert Remet(rs[..n][k], u); }
      }
      if exists k :: 0 <= k < n && Remet(rs[..n][k], u) {
        var k :| 0 <= k < n && Remet(rs[..n][k], u);
        assert Remet(rs[k], u);
      }
    }
  }

  function DernierEtat(rs: seq<Requete>, u: nat, depart: bool): bool {
    if rs == [] then depart
    else if rs[|rs| - 1].RSuspendre? && rs[|rs| - 1].u == u then rs[|rs| - 1].suspendu
    else DernierEtat(rs[..|rs| - 1], u, depart)
  }

  lemma EtapeEtats(s: Coffre, r: Requete, u: nat)
    requires u < |s.portefeuilles|
    ensures |Etape(s, r).portefeuilles| == |s.portefeuilles|
    ensures var p := Etape(s, r).portefeuilles[u];
      && p.suspendu == (if r.RSuspendre? && r.u == u then r.suspendu else s.portefeuilles[u].suspendu)
      && p.bloque == if Remet(r, u) then 0.0 else s.portefeuilles[u].bloque
  {
  }
}
