/**
 * The query and structure kinds that the Index interface declares as
 * integer constants. Their values are not part of this model; only their
 * distinctness matters, and a value that is none of them is still possible.
 */
module IndexConstants {

  datatype QueryType = IntersectionQuery | PhraseQuery | RankedQuery | OtherQuery(code: int)

  datatype StructureType = Bigram | OtherStructure(code: int)
}
