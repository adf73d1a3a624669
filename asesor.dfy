/** The advisor record (`Asesor`): a mutable object with a numeric id and six
    nullable text fields, set one at a time through setters. */
module AsesorRecord {
  import opened Wrappers
  import opened Strings

  /** The seven fields of a record at one moment, in the column order of the
      spreadsheet row (0 id, 1 nombre, 2 apellido, 3 email, 4 telefono,
      5 especialidad, 6 ubicacion). `None` is a Java `null`. */
  datatype AsesorData = AsesorData(
    id: Option<int>,
    nombre: Option<string>,
    apellido: Option<string>,
    email: Option<string>,
    telefono: Option<string>,
    especialidad: Option<string>,
    ubicacion: Option<string>)

  /** The record with every field null, as the no-argument constructor leaves it. */
  const EmptyData := AsesorData(None, None, None, None, None, None, None)

  class Asesor {
    var id: Option<int>
    var nombre: Option<string>
    var apellido: Option<string>
    var email: Option<string>
    var telefono: Option<string>
    var especialidad: Option<string>
    var ubicacion: Option<string>

    /** The current field values. */
    function Data(): AsesorData
      reads this
    {
      AsesorData(id, nombre, apellido, email, telefono, especialidad, ubicacion)
    }

    /** The no-argument constructor: every field null. */
    constructor Empty()
      ensures Data() == EmptyData
    {
      id, nombre, apellido, email := None, None, None, None;
      telefono, especialidad, ubicacion := None, None, None;
    }

    /** The seven-argument constructor: each field from its argument. */
    constructor (id: Option<int>, nombre: Option<string>, apellido: Option<string>,
                 email: Option<string>, telefono: Option<string>,
                 especialidad: Option<string>, ubicacion: Option<string>)
      ensures Data() == AsesorData(id, nombre, apellido, email, telefono, especialidad, ubicacion)
    {
      this.id := id;
      this.nombre := nombre;
      this.apellido := apellido;
      this.email := email;
      this.telefono := telefono;
      this.especialidad := especialidad;
      this.ubicacion := ubicacion;
    }

    /** `getFullName`: name and surname (null read as empty) joined by one space, trimmed. */
    function FullName(): (name: string)
      reads this
      ensures Trimmed(name)
      ensures |name| <= |DefaultString(nombre)| + 1 + |DefaultString(apellido)|
    {
      Trim(DefaultString(nombre) + " " + DefaultString(apellido))
    }

    /** `isValid`: the quick completeness test; every text field is non-blank. */
    predicate IsValid(): (complete: bool)
      reads this
      ensures complete ==>
                && nombre.Some? && nombre.value != [] && apellido.Some? && apellido.value != []
                && email.Some? && email.value != [] && telefono.Some? && telefono.value != []
                && especialidad.Some? && especialidad.value != [] && ubicacion.Some? && ubicacion.value != []
    {
      && IsNotBlank(nombre)
      && IsNotBlank(apellido)
      && IsNotBlank(email)
      && IsNotBlank(telefono)
      && IsNotBlank(especialidad)
      && IsNotBlank(ubicacion)
    }

    method SetId(id: Option<int>)
      modifies this
      ensures Data() == old(Data()).(id := id)
    {
      this.id := id;
    }

    method SetNombre(nombre: Option<string>)
      modifies this
      ensures Data() == old(Data()).(nombre := nombre)
    {
      this.nombre := nombre;
    }

    method SetApellido(apellido: Option<string>)
      modifies this
      ensures Data() == old(Data()).(apellido := apellido)
    {
      this.apellido := apellido;
    }

    method SetEmail(email: Option<string>)
      modifies this
      ensures Data() == old(Data()).(email := email)
    {
      this.email := email;
    }

    method SetTelefono(telefono: Option<string>)
      modifies this
      ensures Data() == old(Data()).(telefono := telefono)
    {
      this.telefono := telefono;
    }

    method SetEspecialidad(especialidad: Option<string>)
      modifies this
      ensures Data() == old(Data()).(especialidad := especialidad)
    {
      this.especialidad := especialidad;
    }

    method SetUbicacion(ubicacion: Option<string>)
      modifies this
      ensures Data() == old(Data()).(ubicacion := ubicacion)
    {
      this.ubicacion := ubicacion;
    }

    /** `equals`: the same object, or another record with all seven fields equal. */
    predicate Equals(o: Asesor?): (same: bool)
      reads this, o
      ensures same <==> o != null && Data() == o.Data()
    {
      this == o ||
      (o != null && id == o.id && nombre == o.nombre && apellido == o.apellido &&
       email == o.email && telefono == o.telefono &&
       especialidad == o.especialidad && ubicacion == o.ubicacion)
    }
  }

  /** `equals` is exactly equality of the field values, and so an equivalence. */
  lemma EqualsIsFieldwise(a: Asesor, b: Asesor?, c: Asesor?)
    ensures a.Equals(b) <==> b != null && a.Data() == b.Data()
    ensures a.Equals(a)
    ensures b != null ==> (a.Equals(b) <==> b.Equals(a))
    ensures b != null && a.Equals(b) && b.Equals(c) ==> a.Equals(c)
  {
  }

  /** With both parts null the full name is empty. */
  lemma FullNameOfNulls(a: Asesor)
    requires a.nombre.None? && a.apellido.None?
    ensures a.FullName() == ""
  {
    TrimEmptyIffBlank(" ");
  }

  /** With a null name the full name is the trimmed surname alone. */
  lemma FullNameWithoutNombre(a: Asesor)
    requires a.nombre.None?
    ensures a.FullName() == Trim(DefaultString(a.apellido))
  {
    var x := DefaultString(a.apellido);
    assert ("" + " " + x)[1..] == x;
  }

  /** Two already-trimmed, non-empty parts are joined by exactly one space. */
  lemma FullNameOfTrimmedParts(a: Asesor)
    requires a.nombre.Some? && a.apellido.Some?
    requires a.nombre.value != [] && a.apellido.value != []
    requires Trimmed(a.nombre.value) && Trimmed(a.apellido.value)
    ensures a.FullName() == a.nombre.value + " " + a.apellido.value
  {
    var j := a.nombre.value + " " + a.apellido.value;
    assert j[0] == a.nombre.value[0] && j[|j| - 1] == a.apellido.value[|a.apellido.value| - 1];
    TrimOfTrimmed(j);
  }

  /** `isValid` does not consult the id: records that differ only there agree on it. */
  lemma IsValidIgnoresId(a: Asesor, b: Asesor)
    requires a.Data().(id := None) == b.Data().(id := None)
    ensures a.IsValid() == b.IsValid()
  {
  }
}
