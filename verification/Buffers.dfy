/** The growing byte buffer behind every io.Writer of the model. */
module Buffers {
  import opened Bytes

  class Buffer {
    var content: bytes

    constructor ()
      ensures content == []
    {
      content := [];
    }

    method Write(p: bytes)
      modifies this
      ensures content == old(content) + p
    {
      content := content + p;
    }

    method Reset()
      modifies this
      ensures content == []
    {
      content := [];
    }
  }
}
