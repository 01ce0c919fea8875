/** The growable output buffer of the serializer. */
module Serializer {
  import opened Chars
  import opened Lexer
  import opened Layout
  import opened Escaping

  const JSON_BUFFER_SIZE := 4096
  const JSON_INDENT_SIZE := 2

  /** A line break and the indentation of `level`. */
  function Newline(level: nat): (w: Blank) {
    "\n" + Spaces(level * JSON_INDENT_SIZE)
  }

  class SerializeState {
    var buffer: array<char>
    var size: nat
    var indentLevel: nat
    var pretty: bool
    /** The output as the lexemes and white space it was written from. */
    ghost var pieces: seq<Piece>

    ghost predicate Sized()
      reads this`buffer, this`size, buffer
    {
      size + 1 <= buffer.Length && buffer[size] == '\0'
    }

    ghost predicate Valid()
      reads this`buffer, this`size, this`pieces, buffer
    {
      Sized() && buffer[..size] == Text(pieces)
    }

    ghost function Contents(): (s: string)
      reads this, buffer
      requires size <= buffer.Length
    {
      buffer[..size]
    }

    constructor ()
      ensures Valid() && fresh(buffer)
      ensures Contents() == "" && pieces == [] && indentLevel == 0 && pretty
    {
      buffer := new char[JSON_BUFFER_SIZE];
      size, indentLevel, pretty, pieces := 0, 0, true, [];
      new;
      buffer[0] := '\0';
    }

    /** Doubles the capacity until `additional` characters and a terminator fit. */
    method EnsureCapacity(additional: nat)
      requires Sized()
      modifies this`buffer
      ensures size < buffer.Length && (buffer == old(buffer) || fresh(buffer))
      ensures size + additional + 1 <= buffer.Length
      ensures buffer.Length >= old(buffer.Length)
      ensures Contents() == old(Contents())
    {
      if size + additional + 1 > buffer.Length {
        var newCapacity := buffer.Length * 2;
        while newCapacity < size + additional + 1
          invariant newCapacity >= buffer.Length * 2
        {
          newCapacity := newCapacity * 2;
        }
        var newBuffer := new char[newCapacity];
        forall i | 0 <= i < buffer.Length {
          newBuffer[i] := buffer[i];
        }
        assert newBuffer[..size] == buffer[..size];
        buffer := newBuffer;
      }
    }

    /** `json_serialize_append`: the text goes behind the output, the terminator behind the text. */
    method Write(str: string)
      requires Sized()
      modifies this`buffer, this`size, buffer
      ensures Sized() && (buffer == old(buffer) || fresh(buffer))
      ensures Contents() == old(Contents()) + str
    {
      EnsureCapacity(|str|);
      forall i | 0 <= i < |str| {
        buffer[size + i] := str[i];
      }
      assert buffer[..size + |str|] == old(Contents()) + str;
      size := size + |str|;
      buffer[size] := '\0';
    }

    method Append(str: string, ghost ps: seq<Piece>)
      requires Valid() && str == Text(ps)
      modifies this`buffer, this`size, this`pieces, buffer
      ensures Valid() && (buffer == old(buffer) || fresh(buffer))
      ensures Contents() == old(Contents()) + str
      ensures pieces == old(pieces) + ps
    {
      Write(str);
      TextPlus(pieces, ps);
      pieces := pieces + ps;
    }

    /** Three appends that only together make whole lexemes. */
    method Append3(a: string, b: string, c: string, ghost ps: seq<Piece>)
      requires Valid() && a + b + c == Text(ps)
      modifies this`buffer, this`size, this`pieces, buffer
      ensures Valid() && (buffer == old(buffer) || fresh(buffer))
      ensures Contents() == old(Contents()) + (a + b + c)
      ensures pieces == old(pieces) + ps
    {
      hide Text;
      ghost var before := Contents();
      Write(a);
      Write(b);
      Write(c);
      Join3(before, a, b, c);
      TextPlus(pieces, ps);
      pieces := pieces + ps;
    }

    /** A JSON string: the escaped text between quotes. */
    method AppendString(str: string)
      requires Valid()
      modifies this`buffer, this`size, this`pieces, buffer
      ensures Valid() && (buffer == old(buffer) || fresh(buffer))
      ensures Contents() == old(Contents()) + ("\"" + Escape(str) + "\"")
      ensures pieces == old(pieces) + [Tok(Str(Escape(str)))]
    {
      var escaped, n := EscapeStringAlloc(str);
      var text := escaped[..n];
      TokText(Str(text));
      Append("\"" + text + "\"", [Tok(Str(text))]);
    }

    method Output() returns (text: string)
      requires Valid()
      ensures text == Text(pieces)
    {
      text := buffer[..size];
    }

    method Indent()
      requires Valid()
      modifies this`buffer, this`size, this`pieces, buffer
      ensures Valid() && (buffer == old(buffer) || fresh(buffer))
      ensures pieces == if pretty then old(pieces) + [Ws(Newline(indentLevel))] else old(pieces)
      ensures Contents() == if pretty then old(Contents()) + ("\n" + Spaces(2 * indentLevel)) else old(Contents())
    {
      hide Text;
      if !pretty {
        return;
      }
      ghost var before, text := pieces, Contents();
      WsText("\n");
      Append("\n", [Ws("\n")]);
      var indentSpaces := indentLevel * JSON_INDENT_SIZE;
      assert "\n" + Spaces(0) == "\n";
      for i := 0 to indentSpaces
        invariant Valid() && (buffer == old(buffer) || fresh(buffer))
        invariant pieces == before + [Ws("\n" + Spaces(i))]
        invariant Contents() == text + ("\n" + Spaces(i))
      {
        WsText(" ");
        Append(" ", [Ws(" ")]);
        assert "\n" + Spaces(i) + " " == "\n" + Spaces(i + 1);
        assert text + ("\n" + Spaces(i)) + " " == text + ("\n" + Spaces(i) + " ");
        WsText("\n" + Spaces(i + 1));
        TextPlus(before, [Ws("\n" + Spaces(i + 1))]);
        pieces := before + [Ws("\n" + Spaces(i + 1))];
      }
    }
  }

  lemma {:induction false} Join3(s: string, a: string, b: string, c: string)
    ensures s + a + b + c == s + (a + b + c)
  {
  }

  lemma {:induction false} TokText(t: Token)
    ensures Text([Tok(t)]) == Lexeme(t)
  {
    hide Lexeme;
    assert [Tok(t)][1..] == [];
  }

  lemma {:induction false} WsText(w: Blank)
    ensures Text([Ws(w)]) == w
  {
    assert [Ws(w)][1..] == [];
  }
}
