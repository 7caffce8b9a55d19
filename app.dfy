/** The stand-alone balance screen of the create-react-app project: a balance (`saldo`), the
    text of the value field (`valor`), and two buttons that add the value to the balance or
    take it off. The component's two pieces of state are the two fields of the class. */
module App {
  import opened Optional
  import opened Numbers

  class ControleFinanceiro {
    /** The balance shown as `Saldo atual`. */
    var saldo: real
    /** The text of the value field. */
    var valor: string

    /** `useState(0)` and `useState("")`. */
    constructor ()
      ensures saldo == 0.0 && valor == ""
    {
      saldo := 0.0;
      valor := "";
    }

    /** The field's `onChange`: the text typed so far; the balance is untouched. */
    method SetValor(text: string)
      modifies this
      ensures valor == text && saldo == old(saldo)
    {
      valor := text;
    }

    /** `handleEntrada`: when the field reads as a number, that number is added to the balance
        and the field is cleared; otherwise nothing changes. */
    method HandleEntrada()
      modifies this
      ensures match ParseFloat(old(valor))
              case None => saldo == old(saldo) && valor == old(valor)
              case Some(entrada) => saldo == old(saldo) + entrada && valor == ""
    {
      var entrada := ParseFloat(valor);
      if entrada.Some? {
        saldo := saldo + entrada.value;
        valor := "";
      }
    }

    /** `handleSaida`: when the field reads as a number, that number is taken off the balance
        and the field is cleared; otherwise nothing changes. There is no sign check. */
    method HandleSaida()
      modifies this
      ensures match ParseFloat(old(valor))
              case None => saldo == old(saldo) && valor == old(valor)
              case Some(saida) => saldo == old(saldo) - saida && valor == ""
    {
      var saida := ParseFloat(valor);
      if saida.Some? {
        saldo := saldo - saida.value;
        valor := "";
      }
    }
  }

  /** Typing a text and pressing `+ Entrada`, then typing the same text and pressing `- Saída`,
      gives back the balance it started from, for a negative value as well; the field ends
      cleared when the text reads as a number and holds the text otherwise. */
  method EntradaThenSaida(screen: ControleFinanceiro, text: string)
    modifies screen
    ensures screen.saldo == old(screen.saldo)
    ensures screen.valor == if ParseFloat(text).Some? then "" else text
  {
    screen.SetValor(text);
    screen.HandleEntrada();
    screen.SetValor(text);
    screen.HandleSaida();
  }

  /** A fresh screen shows a balance of 0 and an empty field; a value of `-5` pressed as an
      entrada lowers the balance. */
  method NegativeEntrada() returns (saldo: real)
    ensures saldo == -5.0
  {
    var screen := new ControleFinanceiro();
    screen.SetValor("-5");
    ParseMinusFive();
    screen.HandleEntrada();
    saldo := screen.saldo;
  }
}
