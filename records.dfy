/** The decoded entity records the store is built from: a tagged union with
    one case per externally supplied kind, plus the case of a record that
    carries none of them. Every reference to another entity is its integer
    identifier. */
module Records {
  import opened Geometry

  datatype Assembly = Assembly(id: int, parts: seq<int>)
  datatype Part = Part(id: int, bodies: seq<int>)
  datatype Shell = Shell(faces: seq<int>)
  datatype Body = Body(id: int, faces: seq<int>, shells: seq<Shell>)

  datatype Surface = Surface(points: seq<Point>, triangles: seq<Triangle>, parameters: seq<SurfaceParam>)
  datatype Loop = Loop(edges: seq<int>)
  datatype Face = Face(id: int, surface: Surface, edges: seq<int>, loops: seq<Loop>)

  datatype Curve = Curve(points: seq<Point>, parameters: seq<real>)
  /** `start` and `end` are vertex identifiers; a negative one means none. */
  datatype Edge = Edge(id: int, curve: Curve, start: int, end: int)

  datatype Vertex = Vertex(id: int, point: Point)

  datatype BRepEntity =
    | AssemblyEntity(assembly: Assembly)
    | PartEntity(part: Part)
    | BodyEntity(body: Body)
    | FaceEntity(face: Face)
    | EdgeEntity(edge: Edge)
    | VertexEntity(vertex: Vertex)
    | UnknownEntity
  {
    predicate IsKnown() {
      !UnknownEntity?
    }

    /** The identifier of a known record. */
    function Id(): int
      requires IsKnown()
    {
      match this
      case AssemblyEntity(a) => a.id
      case PartEntity(p) => p.id
      case BodyEntity(b) => b.id
      case FaceEntity(f) => f.id
      case EdgeEntity(e) => e.id
      case VertexEntity(v) => v.id
    }

    /** The number of loop handles the record makes the store generate. */
    function LoopCount(): nat {
      if FaceEntity? then |face.loops| else 0
    }
  }
}
