/** The shapes the dashboard's tables and forms are configured with. */
module Types {
  import opened Js

  /** A form field: its name in the submitted object, its label (`caption`), its input
      type (`"text"`, `"richtext"`, `"image"`, `"checkbox"`, …) and whether
      it holds a comma-separated list. Nested field lists are not modelled. */
  datatype FormField = FormField(name: string, caption: string, kind: string, isArray: bool)

  predicate NamesUnique(fields: seq<FormField>) {
    forall i, j :: 0 <= i < j < |fields| ==> fields[i].name != fields[j].name
  }

  /** Without its last field, a list of distinct names stays distinct, and
      none of the rest shares the last name. */
  lemma NamesUniqueInit(fields: seq<FormField>, pre: seq<FormField>)
    requires NamesUnique(fields) && fields != [] && pre == fields[..|fields| - 1]
    ensures NamesUnique(pre)
    ensures forall j :: 0 <= j < |pre| ==> pre[j].name != fields[|fields| - 1].name
  {
  }

  /** How a column reads its cell: a member name, or a function of the row. */
  datatype Accessor = ByKey(key: string) | ByFunction(read: Json -> Json)

  datatype Column = Column(header: string, accessor: Accessor)
}
