/** The reservation service, step by step on its tables; each method leaves exactly what the function the laws are about says. */
module ReservationService {
  import opened Commun
  import R = Reservation

  class ServiceReservation {
    var publications: seq<R.Publication>
    var recoltes: seq<R.Recolte>
    var resas: seq<R.Resa>

    function Vue(): R.Marche
      reads this
    {
      R.Marche(publications, recoltes, resas)
    }

    constructor (depart: R.Marche)
      ensures Vue() == depart
    {
      publications, recoltes, resas := depart.publications, depart.recoltes, depart.resas;
    }

    method EcrireDisponible(p: nat, disponible: real)
      requires p < |publications|
      modifies this`publications
      ensures publications == old(publications)[p := old(publications)[p].(disponible := disponible)]
    {
      publications := publications[p := publications[p].(disponible := disponible)];
    }

    method EcrireStatut(i: nat, statut: R.StatutResa)
      requires i < |resas|
      modifies this`resas
      ensures resas == old(resas)[i := old(resas)[i].(statut := statut)]
    {
      resas := resas[i := resas[i].(statut := statut)];
    }

    method DecrementerRecolte(recolte: Option<nat>, q: real)
      modifies this`recoltes
      ensures recoltes == R.VendreRecolte(old(recoltes), recolte, q)
    {
      if recolte.Some? && recolte.value < |recoltes| {
        var r := recoltes[recolte.value];
        var reste := Max(0.0, r.disponible - q);
        recoltes := recoltes[recolte.value := R.Recolte(reste, r.vendu + q, r.vendue || reste == 0.0)];
      }
    }

    method Reserver(commande: nat, publication: Option<nat>, q: real) returns (refus: Option<R.RefusStock>)
      modifies this
      ensures (Vue(), refus) == R.Reserver(old(Vue()), commande, publication, q)
    {
      if publication.None? { return None; }
      if !(q > 0.0) { return None; }
      var deja := R.LigneDe(resas, commande);
      if deja.Some? { return None; }
      var p := publication.value;
      if p >= |publications| { return Some(R.PublicationIntrouvable); }
      var disponible := publications[p].disponible;
      if q > disponible { return Some(R.StockInsuffisant); }
      EcrireDisponible(p, disponible - q);
      resas := resas + [R.Resa(commande, Some(p), None, q, R.Active)];
      return None;
    }

    method Convertir(commande: nat, publication: Option<nat>, q: real)
      modifies this
      ensures Vue() == R.Convertir(old(Vue()), commande, publication, q)
    {
      if publication.None? || publication.value >= |publications| { return; }
      var p := publication.value;
      var i := R.LigneDe(resas, commande);
      if i.Some? {
        if resas[i.value].statut == R.Convertie { return; }
        if resas[i.value].statut == R.Liberee { return; }
        EcrireStatut(i.value, R.Convertie);
      } else {
        if !(q > 0.0) { return; }
        EcrireDisponible(p, Max(0.0, publications[p].disponible - q));
        resas := resas + [R.Resa(commande, Some(p), None, q, R.Convertie)];
      }
      DecrementerRecolte(publications[p].recolte, q);
      if publications[p].disponible == 0.0 && publications[p].statut == R.Disponible {
        publications := publications[p := publications[p].(statut := R.Epuise)];
      }
    }

    method ConvertirRecolteDirecte(commande: nat, recolte: Option<nat>, q: real) returns (refus: Option<R.RefusStock>)
      modifies this
      ensures (Vue(), refus) == R.ConvertirRecolteDirecte(old(Vue()), commande, recolte, q)
    {
      if recolte.None? { return None; }
      if !(q > 0.0) { return None; }
      var deja := R.LigneDe(resas, commande);
      if deja.Some? { return None; }
      if recolte.value >= |recoltes| { return Some(R.RecolteIntrouvable); }
      DecrementerRecolte(recolte, q);
      resas := resas + [R.Resa(commande, None, recolte, q, R.Convertie)];
      return None;
    }

    method Liberer(commande: nat)
      modifies this
      ensures Vue() == R.Liberer(old(Vue()), commande)
    {
      var i := R.LigneDe(resas, commande);
      if i.None? || resas[i.value].statut != R.Active { return; }
      var l := resas[i.value];
      if l.publication.Some? && l.publication.value < |publications| {
        EcrireDisponible(l.publication.value, publications[l.publication.value].disponible + l.quantite);
      }
      EcrireStatut(i.value, R.Liberee);
    }
  }
}
