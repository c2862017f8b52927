/** The process-wide plug-in registry, as far as the record consults it: which
    classes have a Named custom serializer and which have a Named custom
    deserializer. The plug-ins themselves are the `custom` oracle of module
    Construction. */
module Registry {
  import opened Values

  datatype Registry = Registry(serializers: set<TypeId>, deserializers: set<TypeId>)

  /** `INamedSerializer.hasSerializer(t)`. */
  predicate HasSerializer(reg: Registry, t: TypeId) {
    t in reg.serializers
  }

  /** `INamedDeserializer.hasDeserializer(t)`. */
  predicate HasDeserializer(reg: Registry, t: TypeId) {
    t in reg.deserializers
  }
}
