/** np1/rel/rlang/vm_heap.hpp: blocks are cut from a list of chunks, all given back together by a reset;
    and np1/io/ext_heap_buffer_output_stream.hpp: a buffer on that heap that moves to a larger block when full. */
module VmHeap {
  const DEFAULT_CHUNK_SIZE: nat := 1024 * 1024 - 1024

  /** A pointer into a chunk and the size asked for. */
  datatype Block = Block(chunk: nat, offset: nat, size: nat) {
    function End(): nat { offset + size }

    predicate Apart(other: Block) {
      chunk != other.chunk || End() <= other.offset || other.End() <= offset
    }
  }

  class VmHeap {
    var chunks: seq<array<char>>
    /** `m_chunk_iter` and the distance from its chunk's start to `m_unused_p`. */
    var current: nat
    var unused: nat
    /** The blocks handed out since the last reset. */
    ghost var blocks: seq<Block>

    ghost predicate Valid()
      reads this
    {
      && current < |chunks| && unused <= chunks[current].Length
      && (forall i, j :: 0 <= i < j < |chunks| ==> chunks[i] != chunks[j])
      && (forall i :: 0 <= i < |blocks| ==> InUse(blocks[i]))
      && (forall i, j :: 0 <= i < j < |blocks| ==> blocks[i].Apart(blocks[j]))
    }

    /** Inside a chunk and before what is still free. */
    ghost predicate InUse(b: Block)
      reads this
    {
      && b.chunk <= current && b.chunk < |chunks| && b.End() <= chunks[b.chunk].Length
      && (b.chunk == current ==> b.End() <= unused)
    }

    /** What a block holds. */
    ghost function Bytes(b: Block): seq<char>
      requires b.chunk < |chunks| && b.End() <= chunks[b.chunk].Length
      reads this, chunks
    {
      chunks[b.chunk][b.offset..b.End()]
    }

    constructor ()
      ensures Valid() && blocks == [] && fresh(chunks)
    {
      chunks, current, unused, blocks := [], 0, 0, [];
      new;
      AddChunk(1);
    }

    method AddChunk(sizeRequirement: nat)
      requires forall i, j :: 0 <= i < j < |chunks| ==> chunks[i] != chunks[j]
      modifies this
      ensures |chunks| == |old(chunks)| + 1 && chunks[..|old(chunks)|] == old(chunks) && fresh(chunks[|old(chunks)|])
      ensures forall i, j :: 0 <= i < j < |chunks| ==> chunks[i] != chunks[j]
      ensures current == |old(chunks)| && unused == 0
      ensures blocks == old(blocks)
      ensures chunks[current].Length
           == if sizeRequirement > DEFAULT_CHUNK_SIZE then sizeRequirement else DEFAULT_CHUNK_SIZE
    {
      var size := if sizeRequirement > DEFAULT_CHUNK_SIZE then sizeRequirement else DEFAULT_CHUNK_SIZE;
      var chunk := new char[size];
      chunks := chunks + [chunk];
      current := |chunks| - 1;
      unused := 0;
    }

    /** `alloc`: from the current chunk, else from the next one that is large enough, else from a new one. */
    method Alloc(size: nat) returns (b: Block)
      requires Valid()
      modifies this
      ensures Valid() && blocks == old(blocks) + [b] && b.size == size
      ensures old(chunks) <= chunks && forall i :: |old(chunks)| <= i < |chunks| ==> fresh(chunks[i])
      ensures forall c <- old(blocks) :: c.Apart(b)
      ensures |chunks| <= |old(chunks)| + 1
      ensures |chunks| > |old(chunks)| ==> forall i :: old(current) < i < |old(chunks)| ==> old(chunks)[i].Length < size
    {
      if chunks[current].Length - unused < size {
        current := current + 1;
        while current != |chunks|
          invariant chunks == old(chunks) && blocks == old(blocks)
          invariant old(current) < current <= |chunks|
          invariant forall i :: old(current) < i < current ==> chunks[i].Length < size
        {
          if chunks[current].Length >= size {
            unused := 0;
            b := Cut(size);
            return;
          }
          current := current + 1;
        }
        AddChunk(size);
      }
      b := Cut(size);
    }

    /** The next part of the current chunk. */
    method Cut(size: nat) returns (b: Block)
      requires Valid() && chunks[current].Length - unused >= size
      modifies this`unused, this`blocks
      ensures Valid() && blocks == old(blocks) + [b] && b.size == size
      ensures forall c <- old(blocks) :: c.Apart(b)
    {
      b := Block(current, unused, size);
      unused := unused + size;
      blocks := blocks + [b];
    }

    /** `memcpy` into a block: the blocks apart from it keep their bytes. */
    method Put(b: Block, at: nat, bytes: seq<char>)
      requires Valid() && b in blocks && at + |bytes| <= b.size
      modifies chunks[b.chunk]
      ensures Bytes(b) == old(Bytes(b))[..at] + bytes + old(Bytes(b))[at + |bytes|..]
      ensures forall c <- blocks :: c.Apart(b) ==> Bytes(c) == old(Bytes(c))
    {
      var target := chunks[b.chunk];
      var from := b.offset + at;
      forall j | from <= j < from + |bytes| {
        target[j] := bytes[j - from];
      }
      ghost var before := old(target[..]);
      assert target[..] == before[..from] + bytes + before[from + |bytes|..];
      PatchedSlice(before, from, bytes, target[..], b.offset, b.End());
      forall c | c in blocks && c.Apart(b) ensures Bytes(c) == old(Bytes(c)) {
        if c.chunk == b.chunk {
          UntouchedSlice(before, from, bytes, target[..], c.offset, c.End());
        }
      }
    }

    /** `reset`: every block is given back, every chunk kept. */
    method Reset()
      requires Valid()
      modifies this
      ensures Valid() && blocks == [] && chunks == old(chunks) && current == 0 && unused == 0
    {
      current, unused, blocks := 0, 0, [];
    }
  }

  lemma PatchedSlice(before: seq<char>, from: nat, bytes: seq<char>, after: seq<char>, start: nat, end: nat)
    requires start <= from && from + |bytes| <= end <= |before|
    requires after == before[..from] + bytes + before[from + |bytes|..]
    ensures after[start..end]
        == before[start..end][..from - start] + bytes + before[start..end][from - start + |bytes|..]
  {
  }

  lemma SliceStart(s: seq<char>, start: nat, end: nat, n: nat)
    requires start + n <= end <= |s|
    ensures s[start..end][..n] == s[start..start + n]
  {
  }

  lemma UntouchedSlice(before: seq<char>, from: nat, bytes: seq<char>, after: seq<char>, start: nat, end: nat)
    requires start <= end <= |before| && from + |bytes| <= |before| && (end <= from || from + |bytes| <= start)
    requires after == before[..from] + bytes + before[from + |bytes|..]
    ensures after[start..end] == before[start..end]
  {
  }

  /** `ext_heap_buffer_output_stream`. */
  class BufferOutputStream {
    const heap: VmHeap
    const allocationSize: nat
    /** `m_buffer` and `m_buffer_end`, and the distance from the first to `m_buffer_pos`. */
    var buffer: Block
    var used: nat

    ghost predicate Valid()
      reads this, heap
    {
      heap.Valid() && buffer in heap.blocks && used <= buffer.size
    }

    ghost function Contents(): (r: seq<char>)
      requires Valid()
      reads this, heap, heap.chunks
      ensures |r| == used
    {
      heap.Bytes(buffer)[..used]
    }

    constructor (heap: VmHeap, allocationSize: nat)
      requires heap.Valid()
      modifies heap
      ensures Valid() && this.heap == heap && this.allocationSize == allocationSize
      ensures Contents() == [] && buffer.size == allocationSize
      ensures heap.blocks == old(heap.blocks) + [buffer]
      ensures old(heap.chunks) <= heap.chunks
      ensures forall i :: |old(heap.chunks)| <= i < |heap.chunks| ==> fresh(heap.chunks[i])
    {
      var b := heap.Alloc(allocationSize);
      this.heap, this.allocationSize := heap, allocationSize;
      buffer, used := b, 0;
      new;
      assert b == heap.blocks[|heap.blocks| - 1];
    }

    /** Move to a larger block: the contents go along, and the two copies never overlap. */
    method Grow(more: nat)
      requires Valid() && used + more > buffer.size
      modifies this`buffer, heap, heap.chunks
      ensures Valid() && used + more <= buffer.size
      ensures Contents() == old(Contents())
      ensures old(heap.blocks) <= heap.blocks
      ensures old(heap.chunks) <= heap.chunks
      ensures forall i :: |old(heap.chunks)| <= i < |heap.chunks| ==> fresh(heap.chunks[i])
      ensures forall b <- old(heap.blocks) :: b.Apart(buffer) && heap.Bytes(b) == old(heap.Bytes(b))
    {
      var currentSize := buffer.size;
      var newSize := currentSize + allocationSize;
      if used + more > newSize {
        newSize := currentSize + more;
      }
      ghost var before := Contents();
      SliceStart(heap.chunks[buffer.chunk][..], buffer.offset, buffer.End(), used);
      assert before == heap.chunks[buffer.chunk][buffer.offset..buffer.offset + used];
      var newBuffer := heap.Alloc(newSize);
      assert heap.blocks[|heap.blocks| - 1] == newBuffer;
      assert newBuffer.chunk < |old(heap.chunks)| ==> heap.chunks[newBuffer.chunk] == old(heap.chunks)[newBuffer.chunk];
      heap.Put(newBuffer, 0, heap.chunks[buffer.chunk][buffer.offset..buffer.offset + used]);
      buffer := newBuffer;
      assert Contents() == before;
    }

    /** `ptr` and `size`. */
    method Read() returns (s: seq<char>)
      requires Valid()
      ensures s == Contents()
    {
      s := heap.chunks[buffer.chunk][buffer.offset..buffer.offset + used];
      SliceStart(heap.chunks[buffer.chunk][..], buffer.offset, buffer.End(), used);
      assert s == Contents();
    }

    /** `write_some`: false where the source aborts, on an empty write to a full buffer. Every other block keeps
        its bytes. */
    method WriteSome(buf: seq<char>) returns (ok: bool)
      requires Valid()
      modifies this, heap, heap.chunks
      ensures Valid() && ok == (buf != [] || old(used) < old(buffer.size))
      ensures Contents() == old(Contents()) + buf
      ensures old(heap.blocks) <= heap.blocks
      ensures old(heap.chunks) <= heap.chunks
      ensures forall i :: |old(heap.chunks)| <= i < |heap.chunks| ==> fresh(heap.chunks[i])
      ensures old(used) + |buf| <= old(buffer.size) ==>
        buffer == old(buffer) && heap.blocks == old(heap.blocks) && heap.chunks == old(heap.chunks)
      ensures forall b :: b in old(heap.blocks) && b.Apart(old(buffer)) ==> heap.Bytes(b) == old(heap.Bytes(b))
    {
      if used + |buf| > buffer.size {
        Grow(|buf|);
      }
      if !(used < buffer.size) {
        assert Contents() + buf == Contents();
        return false;
      }
      heap.Put(buffer, used, buf);
      used := used + |buf|;
      assert Contents() == old(Contents()) + buf;
      return true;
    }

    /** `write` of the stream helper, which never passes on an empty write. */
    method Write(buf: seq<char>)
      requires Valid()
      modifies this, heap, heap.chunks
      ensures Valid() && Contents() == old(Contents()) + buf
      ensures old(heap.blocks) <= heap.blocks
      ensures old(heap.chunks) <= heap.chunks
      ensures forall i :: |old(heap.chunks)| <= i < |heap.chunks| ==> fresh(heap.chunks[i])
      ensures old(used) + |buf| <= old(buffer.size) ==>
        buffer == old(buffer) && heap.blocks == old(heap.blocks) && heap.chunks == old(heap.chunks)
      ensures forall b :: b in old(heap.blocks) && b.Apart(old(buffer)) ==> heap.Bytes(b) == old(heap.Bytes(b))
    {
      if |buf| > 0 {
        var ok := WriteSome(buf);
        assert ok;
      } else {
        assert Contents() == Contents() + buf;
      }
    }
  }
}
