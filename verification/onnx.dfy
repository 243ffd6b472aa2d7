/** The twenty message types of onnx-ml.proto3.pb.cpp: the arms of each
    `_InternalParse` switch, in the order the printers write them. */
module Onnx {
  import opened Messages

  const ATTRIBUTE_PROTO: nat := 0
  const VALUE_INFO_PROTO: nat := 1
  const NODE_PROTO: nat := 2
  const TRAINING_INFO_PROTO: nat := 3
  const MODEL_PROTO: nat := 4
  const STRING_STRING_ENTRY_PROTO: nat := 5
  const TENSOR_ANNOTATION: nat := 6
  const GRAPH_PROTO: nat := 7
  const TENSOR_PROTO_SEGMENT: nat := 8
  const TENSOR_PROTO: nat := 9
  const SPARSE_TENSOR_PROTO: nat := 10
  const TENSOR_SHAPE_PROTO_DIMENSION: nat := 11
  const TENSOR_SHAPE_PROTO: nat := 12
  const TYPE_PROTO_TENSOR: nat := 13
  const TYPE_PROTO_SEQUENCE: nat := 14
  const TYPE_PROTO_MAP: nat := 15
  const TYPE_PROTO_SPARSE_TENSOR: nat := 16
  const TYPE_PROTO_OPAQUE: nat := 17
  const TYPE_PROTO: nat := 18
  const OPERATOR_SET_ID_PROTO: nat := 19

  const ATTRIBUTE_PROTO_FIELDS: seq<Field> := [
    Field(1, Str, Implicit),  // name
    Field(2, Float, Implicit),  // f
    Field(3, Int64, Implicit),  // i
    Field(4, Bytes, Implicit),  // s
    Field(5, Message(TENSOR_PROTO), Optional),  // t
    Field(6, Message(GRAPH_PROTO), Optional),  // g
    Field(7, Float, Packed),  // floats
    Field(8, Int64, Packed),  // ints
    Field(9, Bytes, Repeated),  // strings
    Field(10, Message(TENSOR_PROTO), Repeated),  // tensors
    Field(11, Message(GRAPH_PROTO), Repeated),  // graphs
    Field(13, Str, Implicit),  // doc_string
    Field(20, Int32, Implicit),  // type
    Field(21, Str, Implicit),  // ref_attr_name
    Field(22, Message(SPARSE_TENSOR_PROTO), Optional),  // sparse_tensor
    Field(23, Message(SPARSE_TENSOR_PROTO), Repeated)  // sparse_tensors
  ]
  const ATTRIBUTE_PROTO_TAGS: seq<nat> := [10, 21, 24, 34, 42, 50, 61, 64, 74, 82, 90, 106, 160, 170, 178, 186]

  const VALUE_INFO_PROTO_FIELDS: seq<Field> := [
    Field(1, Str, Implicit),  // name
    Field(2, Message(TYPE_PROTO), Optional),  // type
    Field(3, Str, Implicit)  // doc_string
  ]
  const VALUE_INFO_PROTO_TAGS: seq<nat> := [10, 18, 26]

  const NODE_PROTO_FIELDS: seq<Field> := [
    Field(1, Str, Repeated),  // input
    Field(2, Str, Repeated),  // output
    Field(3, Str, Implicit),  // name
    Field(4, Str, Implicit),  // op_type
    Field(5, Message(ATTRIBUTE_PROTO), Repeated),  // attribute
    Field(6, Str, Implicit),  // doc_string
    Field(7, Str, Implicit)  // domain
  ]
  const NODE_PROTO_TAGS: seq<nat> := [10, 18, 26, 34, 42, 50, 58]

  const TRAINING_INFO_PROTO_FIELDS: seq<Field> := [
    Field(1, Message(GRAPH_PROTO), Optional),  // initialization
    Field(2, Message(GRAPH_PROTO), Optional),  // algorithm
    Field(3, Message(STRING_STRING_ENTRY_PROTO), Repeated),  // initialization_binding
    Field(4, Message(STRING_STRING_ENTRY_PROTO), Repeated)  // update_binding
  ]
  const TRAINING_INFO_PROTO_TAGS: seq<nat> := [10, 18, 26, 34]

  const MODEL_PROTO_FIELDS: seq<Field> := [
    Field(1, Int64, Implicit),  // ir_version
    Field(2, Str, Implicit),  // producer_name
    Field(3, Str, Implicit),  // producer_version
    Field(4, Str, Implicit),  // domain
    Field(5, Int64, Implicit),  // model_version
    Field(6, Str, Implicit),  // doc_string
    Field(7, Message(GRAPH_PROTO), Optional),  // graph
    Field(8, Message(OPERATOR_SET_ID_PROTO), Repeated),  // opset_import
    Field(14, Message(STRING_STRING_ENTRY_PROTO), Repeated),  // metadata_props
    Field(20, Message(TRAINING_INFO_PROTO), Repeated)  // training_info
  ]
  const MODEL_PROTO_TAGS: seq<nat> := [8, 18, 26, 34, 40, 50, 58, 66, 114, 162]

  const STRING_STRING_ENTRY_PROTO_FIELDS: seq<Field> := [
    Field(1, Str, Implicit),  // key
    Field(2, Str, Implicit)  // value
  ]
  const STRING_STRING_ENTRY_PROTO_TAGS: seq<nat> := [10, 18]

  const TENSOR_ANNOTATION_FIELDS: seq<Field> := [
    Field(1, Str, Implicit),  // tensor_name
    Field(2, Message(STRING_STRING_ENTRY_PROTO), Repeated)  // quant_parameter_tensor_names
  ]
  const TENSOR_ANNOTATION_TAGS: seq<nat> := [10, 18]

  const GRAPH_PROTO_FIELDS: seq<Field> := [
    Field(1, Message(NODE_PROTO), Repeated),  // node
    Field(2, Str, Implicit),  // name
    Field(5, Message(TENSOR_PROTO), Repeated),  // initializer
    Field(10, Str, Implicit),  // doc_string
    Field(11, Message(VALUE_INFO_PROTO), Repeated),  // input
    Field(12, Message(VALUE_INFO_PROTO), Repeated),  // output
    Field(13, Message(VALUE_INFO_PROTO), Repeated),  // value_info
    Field(14, Message(TENSOR_ANNOTATION), Repeated),  // quantization_annotation
    Field(15, Message(SPARSE_TENSOR_PROTO), Repeated)  // sparse_initializer
  ]
  const GRAPH_PROTO_TAGS: seq<nat> := [10, 18, 42, 82, 90, 98, 106, 114, 122]

  const TENSOR_PROTO_SEGMENT_FIELDS: seq<Field> := [
    Field(1, Int64, Implicit),  // begin
    Field(2, Int64, Implicit)  // end
  ]
  const TENSOR_PROTO_SEGMENT_TAGS: seq<nat> := [8, 16]

  const TENSOR_PROTO_FIELDS: seq<Field> := [
    Field(1, Int64, Packed),  // dims
    Field(2, Int32, Implicit),  // data_type
    Field(3, Message(TENSOR_PROTO_SEGMENT), Optional),  // segment
    Field(4, Float, Packed),  // float_data
    Field(5, Int32, Packed),  // int32_data
    Field(6, Bytes, Repeated),  // string_data
    Field(7, Int64, Packed),  // int64_data
    Field(8, Str, Implicit),  // name
    Field(9, Bytes, Implicit),  // raw_data
    Field(10, Double, Packed),  // double_data
    Field(11, UInt64, Packed),  // uint64_data
    Field(12, Str, Implicit),  // doc_string
    Field(13, Message(STRING_STRING_ENTRY_PROTO), Repeated),  // external_data
    Field(14, Int32, Implicit)  // data_location
  ]
  const TENSOR_PROTO_TAGS: seq<nat> := [8, 16, 26, 37, 40, 50, 56, 66, 74, 81, 88, 98, 106, 112]

  const SPARSE_TENSOR_PROTO_FIELDS: seq<Field> := [
    Field(1, Message(TENSOR_PROTO), Optional),  // values
    Field(2, Message(TENSOR_PROTO), Optional),  // indices
    Field(3, Int64, Packed)  // dims
  ]
  const SPARSE_TENSOR_PROTO_TAGS: seq<nat> := [10, 18, 24]

  const TENSOR_SHAPE_PROTO_DIMENSION_FIELDS: seq<Field> := [
    Field(1, Int64, Oneof),  // dim_value
    Field(2, Str, Oneof),  // dim_param
    Field(3, Str, Implicit)  // denotation
  ]
  const TENSOR_SHAPE_PROTO_DIMENSION_TAGS: seq<nat> := [8, 18, 26]

  const TENSOR_SHAPE_PROTO_FIELDS: seq<Field> := [
    Field(1, Message(TENSOR_SHAPE_PROTO_DIMENSION), Repeated)  // dim
  ]
  const TENSOR_SHAPE_PROTO_TAGS: seq<nat> := [10]

  const TYPE_PROTO_TENSOR_FIELDS: seq<Field> := [
    Field(1, Int32, Implicit),  // elem_type
    Field(2, Message(TENSOR_SHAPE_PROTO), Optional)  // shape
  ]
  const TYPE_PROTO_TENSOR_TAGS: seq<nat> := [8, 18]

  const TYPE_PROTO_SEQUENCE_FIELDS: seq<Field> := [
    Field(1, Message(TYPE_PROTO), Optional)  // elem_type
  ]
  const TYPE_PROTO_SEQUENCE_TAGS: seq<nat> := [10]

  const TYPE_PROTO_MAP_FIELDS: seq<Field> := [
    Field(1, Int32, Implicit),  // key_type
    Field(2, Message(TYPE_PROTO), Optional)  // value_type
  ]
  const TYPE_PROTO_MAP_TAGS: seq<nat> := [8, 18]

  const TYPE_PROTO_SPARSE_TENSOR_FIELDS: seq<Field> := [
    Field(1, Int32, Implicit),  // elem_type
    Field(2, Message(TENSOR_SHAPE_PROTO), Optional)  // shape
  ]
  const TYPE_PROTO_SPARSE_TENSOR_TAGS: seq<nat> := [8, 18]

  const TYPE_PROTO_OPAQUE_FIELDS: seq<Field> := [
    Field(1, Str, Implicit),  // domain
    Field(2, Str, Implicit)  // name
  ]
  const TYPE_PROTO_OPAQUE_TAGS: seq<nat> := [10, 18]

  const TYPE_PROTO_FIELDS: seq<Field> := [
    Field(1, Message(TYPE_PROTO_TENSOR), Oneof),  // tensor_type
    Field(4, Message(TYPE_PROTO_SEQUENCE), Oneof),  // sequence_type
    Field(5, Message(TYPE_PROTO_MAP), Oneof),  // map_type
    Field(6, Str, Implicit),  // denotation
    Field(7, Message(TYPE_PROTO_OPAQUE), Oneof),  // opaque_type
    Field(8, Message(TYPE_PROTO_SPARSE_TENSOR), Oneof)  // sparse_tensor_type
  ]
  const TYPE_PROTO_TAGS: seq<nat> := [10, 34, 42, 50, 58, 66]

  const OPERATOR_SET_ID_PROTO_FIELDS: seq<Field> := [
    Field(1, Str, Implicit),  // domain
    Field(2, Int64, Implicit)  // version
  ]
  const OPERATOR_SET_ID_PROTO_TAGS: seq<nat> := [10, 16]

  const ONNX: Schema := [
    ATTRIBUTE_PROTO_FIELDS,
    VALUE_INFO_PROTO_FIELDS,
    NODE_PROTO_FIELDS,
    TRAINING_INFO_PROTO_FIELDS,
    MODEL_PROTO_FIELDS,
    STRING_STRING_ENTRY_PROTO_FIELDS,
    TENSOR_ANNOTATION_FIELDS,
    GRAPH_PROTO_FIELDS,
    TENSOR_PROTO_SEGMENT_FIELDS,
    TENSOR_PROTO_FIELDS,
    SPARSE_TENSOR_PROTO_FIELDS,
    TENSOR_SHAPE_PROTO_DIMENSION_FIELDS,
    TENSOR_SHAPE_PROTO_FIELDS,
    TYPE_PROTO_TENSOR_FIELDS,
    TYPE_PROTO_SEQUENCE_FIELDS,
    TYPE_PROTO_MAP_FIELDS,
    TYPE_PROTO_SPARSE_TENSOR_FIELDS,
    TYPE_PROTO_OPAQUE_FIELDS,
    TYPE_PROTO_FIELDS,
    OPERATOR_SET_ID_PROTO_FIELDS
  ]

  /** The constants the parsers compare tags with, type by type. */
  const ONNX_TAGS: seq<seq<nat>> := [
    ATTRIBUTE_PROTO_TAGS,
    VALUE_INFO_PROTO_TAGS,
    NODE_PROTO_TAGS,
    TRAINING_INFO_PROTO_TAGS,
    MODEL_PROTO_TAGS,
    STRING_STRING_ENTRY_PROTO_TAGS,
    TENSOR_ANNOTATION_TAGS,
    GRAPH_PROTO_TAGS,
    TENSOR_PROTO_SEGMENT_TAGS,
    TENSOR_PROTO_TAGS,
    SPARSE_TENSOR_PROTO_TAGS,
    TENSOR_SHAPE_PROTO_DIMENSION_TAGS,
    TENSOR_SHAPE_PROTO_TAGS,
    TYPE_PROTO_TENSOR_TAGS,
    TYPE_PROTO_SEQUENCE_TAGS,
    TYPE_PROTO_MAP_TAGS,
    TYPE_PROTO_SPARSE_TENSOR_TAGS,
    TYPE_PROTO_OPAQUE_TAGS,
    TYPE_PROTO_TAGS,
    OPERATOR_SET_ID_PROTO_TAGS
  ]

  /** A well-formed table whose tags are field number and wire type. */
  predicate TableRight(fs: seq<Field>, tags: seq<nat>) {
    && WfType(ONNX, fs) && |fs| == |tags|
    && forall i | 0 <= i < |fs| :: tags[i] == fs[i].num * 8 + WireType(fs[i].kind)
  }

  lemma AttributeTable()
    ensures TableRight(ONNX[ATTRIBUTE_PROTO], ONNX_TAGS[ATTRIBUTE_PROTO])
  {
  }

  lemma TensorTable()
    ensures TableRight(ONNX[TENSOR_PROTO], ONNX_TAGS[TENSOR_PROTO])
  {
  }

  lemma ModelTables(i: nat)
    requires ATTRIBUTE_PROTO < i < GRAPH_PROTO
    ensures TableRight(ONNX[i], ONNX_TAGS[i])
  {
  }

  lemma GraphTables(i: nat)
    requires GRAPH_PROTO <= i <= TENSOR_SHAPE_PROTO && i != TENSOR_PROTO
    ensures TableRight(ONNX[i], ONNX_TAGS[i])
  {
  }

  lemma TypeTables(i: nat)
    requires TYPE_PROTO_TENSOR <= i <= OPERATOR_SET_ID_PROTO
    ensures TableRight(ONNX[i], ONNX_TAGS[i])
  {
  }

  /** All twenty tables are well formed and have the parsers' tag constants. */
  lemma OnnxTables()
    ensures |ONNX| == |ONNX_TAGS| == 20 && forall i | 0 <= i < 20 :: TableRight(ONNX[i], ONNX_TAGS[i])
  {
    hide TableRight;
    AttributeTable();
    TensorTable();
    forall i | 0 <= i < 20
      ensures TableRight(ONNX[i], ONNX_TAGS[i])
    {
      if ATTRIBUTE_PROTO < i < GRAPH_PROTO {
        ModelTables(i);
      } else if GRAPH_PROTO <= i <= TENSOR_SHAPE_PROTO && i != TENSOR_PROTO {
        GraphTables(i);
      } else if i >= TYPE_PROTO_TENSOR {
        TypeTables(i);
      }
    }
  }

  lemma OnnxSchema()
    ensures WfSchema(ONNX)
  {
    OnnxTables();
  }
}
